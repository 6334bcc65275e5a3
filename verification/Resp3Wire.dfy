/** The RESP3 printer, and what the client must make of its output when pushes stand in front of a reply. */
module Resp3Wire {
  import opened Bytes
  import Resp
  import opened Resp3

  datatype Wire =
    | Simple(text: bytes) | ErrorLine(text: bytes) | ErrorBlob(data: bytes)
    | Int(n: int) | BigInt(n: int) | Decimals(text: bytes) | Boolean(b: bool) | Null
    | BlobString(data: bytes) | VerbatimString(format: bytes, data: bytes)
    | Array(items: seq<Wire>) | SetOf(items: seq<Wire>)
    | MapOf(fields: seq<Wire>) // key, value, key, value, ...

  function Sized(tag: byte, data: bytes): bytes {
    Resp.Header(tag, Decimal(|data|)) + data + CRLF
  }

  function Encode(w: Wire): bytes {
    match w
    case Simple(text) => Resp.Header(43, text)
    case ErrorLine(text) => Resp.Header(45, text)
    case ErrorBlob(data) => Sized(33, data)
    case Int(n) => Resp.Header(58, Decimal(n))
    case BigInt(n) => Resp.Header(40, Decimal(n))
    case Decimals(text) => Resp.Header(44, text)
    case Boolean(b) => Resp.Header(35, Ascii(if b then "t" else "f"))
    case Null => Resp.Header(95, [])
    case BlobString(data) => Sized(36, data)
    case VerbatimString(format, data) => Sized(61, format + Ascii(":") + data)
    case Array(items) => Resp.Header(42, Decimal(|items|)) + EncodeAll(items)
    case SetOf(items) => Resp.Header(126, Decimal(|items|)) + EncodeAll(items)
    case MapOf(fields) => Resp.Header(37, Decimal(|fields| / 2)) + EncodeAll(fields)
  }

  function EncodeAll(items: seq<Wire>): bytes {
    if items == [] then [] else EncodeAll(items[..|items| - 1]) + Encode(items[|items| - 1])
  }

  function Meaning(w: Wire): Value {
    match w
    case Simple(text) => Str(text)
    case ErrorLine(text) => Err(text)
    case ErrorBlob(data) => Err(data)
    case Int(n) => Num(n)
    case BigInt(n) => Num(n)
    case Decimals(text) => Double(text)
    case Boolean(b) => Bool(b)
    case Null => Nil
    case BlobString(data) => Str(data)
    case VerbatimString(_, data) => Str(data)
    case Array(items) => List(Meanings(items))
    case SetOf(items) => List(Meanings(items))
    case MapOf(fields) => Dict(PairsOf(Meanings(fields)))
  }

  function Meanings(items: seq<Wire>): (values: seq<Value>)
    ensures |values| == |items|
    ensures forall i :: 0 <= i < |items| ==> values[i] == Meaning(items[i])
  {
    if items == [] then [] else Meanings(items[..|items| - 1]) + [Meaning(items[|items| - 1])]
  }

  function PairsOf(fields: seq<Value>): seq<(Value, Value)> {
    seq(|fields| / 2, i requires 0 <= i < |fields| / 2 => (fields[2 * i], fields[2 * i + 1]))
  }

  /** The keys of a map are scalars, and no two of them are equal. */
  predicate DistinctKeys(fields: seq<Value>) {
    && |fields| % 2 == 0
    && (forall i :: 0 <= i < |fields| / 2 ==> Hashable(fields[2 * i]))
    && (forall i, j :: 0 <= i < j < |fields| / 2 ==> !SameKey(fields[2 * i], fields[2 * j]))
  }

  /** The replies the client returns rather than raises, printed as the protocol requires. */
  predicate Returnable(w: Wire) {
    match w
    case Simple(text) => OneLine(text)
    case ErrorLine(text) => OneLine(text) && !Resp.RaisesConnectionError(text)
    case ErrorBlob(data) => !Resp.RaisesConnectionError(data)
    case Decimals(text) => OneLine(text)
    case VerbatimString(format, _) => |format| == 3
    case Array(items) => forall i :: 0 <= i < |items| ==> Returnable(items[i])
    case SetOf(items) => forall i :: 0 <= i < |items| ==> Returnable(items[i])
    case MapOf(fields) =>
      && (forall i :: 0 <= i < |fields| ==> Returnable(fields[i]))
      && DistinctKeys(Meanings(fields))
    case _ => true
  }

  // ---------------------------------------------------------------- maps

  /** Filling a dict with distinct keys keeps every pair, in order. */
  lemma {:induction false} DictKeepsDistinctPairs(fields: seq<Value>)
    requires DistinctKeys(fields)
    ensures DictOf(fields) == PairsOf(fields)
  {
    if |fields| >= 2 {
      hide DistinctKeys, PairsOf, SameKey, Hashable, Position;
      LastPair(fields);
      DictKeepsDistinctPairs(fields[..|fields| - 2]);
      assert Position(PairsOf(fields[..|fields| - 2]), fields[|fields| - 2]) == |PairsOf(fields[..|fields| - 2])|;
    }
  }

  lemma {:induction false} LastPair(fields: seq<Value>)
    requires DistinctKeys(fields) && |fields| >= 2
    ensures var init, key, value := fields[..|fields| - 2], fields[|fields| - 2], fields[|fields| - 1];
      && DistinctKeys(init) && PairsOf(fields) == PairsOf(init) + [(key, value)]
      && forall k :: 0 <= k < |PairsOf(init)| ==> !SameKey(PairsOf(init)[k].0, key)
  {
    hide SameKey, Hashable;
    var init, key := fields[..|fields| - 2], fields[|fields| - 2];
    assert forall i :: 0 <= i < |init| / 2 ==> init[2 * i] == fields[2 * i] && init[2 * i + 1] == fields[2 * i + 1];
    var last := |fields| / 2 - 1;
    assert fields[2 * last] == key;
  }

  /** Two scalars are one key exactly when they are equal, or a boolean and its number. */
  lemma {:induction false} SameKeyExactly(a: Value, b: Value)
    requires Hashable(a) && Hashable(b) && !a.Err?
    ensures SameKey(a, b) <==>
      || a == b
      || (exists x :: a == Bool(x) && b == Num(if x then 1 else 0))
      || (exists x :: b == Bool(x) && a == Num(if x then 1 else 0))
  {
    if a.Bool? && b.Num? && SameKey(a, b) {
      assert a == Bool(a.b);
    }
    if b.Bool? && a.Num? && SameKey(a, b) {
      assert b == Bool(b.b);
    }
  }

  /** A map whose keys are different strings may be printed; its values may be anything that may. */
  lemma {:induction false} StringMap(fields: seq<Wire>)
    requires |fields| % 2 == 0 && forall i :: 0 <= i < |fields| ==> Returnable(fields[i])
    requires forall i :: 0 <= i < |fields| / 2 ==> fields[2 * i].BlobString?
    requires forall i, j :: 0 <= i < j < |fields| / 2 ==> fields[2 * i].data != fields[2 * j].data
    ensures Returnable(MapOf(fields))
  {
    forall i | 0 <= i < |fields| / 2 ensures Meanings(fields)[2 * i] == Str(fields[2 * i].data) {
      assert Meanings(fields)[2 * i] == Meaning(fields[2 * i]);
    }
  }

  /** The value that a later pair gives a key is the one the dict has, at the key's first place. */
  lemma {:induction false} InsertedValue(entries: seq<(Value, Value)>, key: Value, value: Value)
    requires SameKey(key, key)
    ensures var after, p := Insert(entries, key, value), Position(entries, key);
      && p < |after| && after[p].1 == value && SameKey(after[p].0, key)
      && |after| == (if p < |entries| then |entries| else |entries| + 1)
      && forall i :: 0 <= i < |after| && i != p ==> i < |entries| && after[i] == entries[i]
  {
  }

  // ---------------------------------------------------------------- headers

  lemma {:induction false} HeaderRead(d: Dialect, tag: byte, text: bytes, post: bytes, push: bool)
    requires OneLine(text) && tag != CR && tag != LF
    ensures ParseAt(d, Resp.Header(tag, text) + post, 0, push) ==
            AfterHead(d, Resp.Header(tag, text) + post, Classify([tag] + text), |Resp.Header(tag, text)|, push)
  {
    hide Classify, AfterHead, Resp.FindLine;
    Resp.HeaderLine(d.mode, tag, text, post);
  }

  lemma {:induction false} CountRead(n: nat)
    ensures OneLine(Decimal(n))
    ensures Classify([36] + Decimal(n)) == Payload(Blob, n)
    ensures Classify([33] + Decimal(n)) == Payload(BlobError, n)
    ensures Classify([61] + Decimal(n)) == Payload(Verbatim, n)
    ensures Classify([42] + Decimal(n)) == Group(Plain, n)
    ensures Classify([126] + Decimal(n)) == Group(Plain, n)
    ensures Classify([37] + Decimal(n)) == Group(Pairs, n)
    ensures Classify([62] + Decimal(n)) == Group(PushItems, n)
  {
    hide Decimal, ParseInt, Resp.RaisesConnectionError, Ascii;
    DecimalRoundTrip(n);
    assert forall tag: byte :: ([tag] + Decimal(n))[1..] == Decimal(n);
  }

  lemma {:induction false} PayloadRead(d: Dialect, tag: byte, form: Form, data: bytes, post: bytes, push: bool)
    requires tag != CR && tag != LF && Classify([tag] + Decimal(|data|)) == Payload(form, |data|)
    ensures ParseAt(d, Sized(tag, data) + post, 0, push) == Finish(form, data, |Sized(tag, data)|)
  {
    hide Classify, Decimal, ParseAt, Finish;
    CountRead(|data|);
    var head := Resp.Header(tag, Decimal(|data|));
    var s := Sized(tag, data) + post;
    assert s == head + (data + CRLF + post);
    HeaderRead(d, tag, Decimal(|data|), data + CRLF + post, push);
    assert s[|head|..|head| + |data|] == data;
  }

  lemma {:induction false} ScalarRead(w: Wire)
    requires Returnable(w)
    ensures w.Simple? ==> Classify([43] + w.text) == Whole(Str(w.text))
    ensures w.ErrorLine? ==> Classify([45] + w.text) == Whole(Err(w.text))
    ensures w.Int? ==> Classify([58] + Decimal(w.n)) == Whole(Num(w.n)) && OneLine(Decimal(w.n))
    ensures w.BigInt? ==> Classify([40] + Decimal(w.n)) == Whole(Num(w.n)) && OneLine(Decimal(w.n))
    ensures w.Decimals? ==> Classify([44] + w.text) == Whole(Double(w.text))
    ensures w.Boolean? ==>
      var text := Ascii(if w.b then "t" else "f");
      Classify([35] + text) == Whole(Bool(w.b)) && OneLine(text)
    ensures w.Null? ==> Classify([95] + []) == Whole(Nil)
  {
    hide Decimal, ParseInt;
    match w
    case Simple(text) => assert ([43] + text)[1..] == text;
    case ErrorLine(text) => assert ([45] + text)[1..] == text;
    case Int(n) => NumberRead(n);
    case BigInt(n) => NumberRead(n);
    case Decimals(text) => assert ([44] + text)[1..] == text;
    case Boolean(b) => BooleanRead(b);
    case _ =>
  }

  lemma {:induction false} NumberRead(n: int)
    ensures Classify([58] + Decimal(n)) == Classify([40] + Decimal(n)) == Whole(Num(n)) && OneLine(Decimal(n))
  {
    hide Decimal;
    DecimalRoundTrip(n);
    assert ([58] + Decimal(n))[1..] == Decimal(n) && ([40] + Decimal(n))[1..] == Decimal(n);
  }

  lemma {:induction false} BooleanRead(b: bool)
    ensures var text := Ascii(if b then "t" else "f"); Classify([35] + text) == Whole(Bool(b)) && OneLine(text)
  {
    assert Ascii("t") == [116] && Ascii("f") == [102];
    var text := Ascii(if b then "t" else "f");
    assert ([35] + text)[1..] == text;
  }

  // ---------------------------------------------------------------- replies

  lemma {:induction false} KeysHashable(fields: seq<Wire>)
    requires DistinctKeys(Meanings(fields))
    ensures |fields| % 2 == 0 && forall i :: 0 <= i < |fields| && i % 2 == 0 ==> Hashable(Meaning(fields[i]))
  {
    hide Meaning, Hashable, SameKey;
    forall i | 0 <= i < |fields| && i % 2 == 0 ensures Hashable(Meaning(fields[i])) {
      assert Meanings(fields)[2 * (i / 2)] == Meaning(fields[i]);
    }
  }

  /** Parsing what the server printed gives the reply back, stops right behind it, and routes no push. */
  lemma {:induction false} RoundTrip(d: Dialect, w: Wire, post: bytes, push: bool)
    requires Returnable(w)
    ensures ParseAt(d, Encode(w) + post, 0, push) == Done(Meaning(w), |Encode(w)|, [])
    decreases w
  {
    hide Classify, ParseItems, ParseAt, EncodeAll, Meanings, Decimal, DictOf, DistinctKeys, Hashable;
    ScalarRead(w);
    match w
    case Simple(text) => HeaderRead(d, 43, text, post, push);
    case ErrorLine(text) => HeaderRead(d, 45, text, post, push);
    case ErrorBlob(data) => CountRead(|data|); PayloadRead(d, 33, BlobError, data, post, push);
    case Int(n) => HeaderRead(d, 58, Decimal(n), post, push);
    case BigInt(n) => HeaderRead(d, 40, Decimal(n), post, push);
    case Decimals(text) => HeaderRead(d, 44, text, post, push);
    case Boolean(b) => HeaderRead(d, 35, Ascii(if b then "t" else "f"), post, push);
    case Null => HeaderRead(d, 95, [], post, push);
    case BlobString(data) => CountRead(|data|); PayloadRead(d, 36, Blob, data, post, push);
    case VerbatimString(format, data) =>
      var all := format + Ascii(":") + data;
      CountRead(|all|);
      PayloadRead(d, 61, Verbatim, all, post, push);
      assert all[4..] == data;
    case Array(items) =>
      ItemsRoundTrip(d, Plain, items, post, push, w);
      CountRead(|items|);
      GroupRead(d, 42, Plain, |items|, items, post, push);
    case SetOf(items) =>
      ItemsRoundTrip(d, Plain, items, post, push, w);
      CountRead(|items|);
      GroupRead(d, 126, Plain, |items|, items, post, push);
    case MapOf(fields) =>
      KeysHashable(fields);
      ItemsRoundTrip(d, Pairs, fields, post, push, w);
      CountRead(|fields| / 2);
      GroupRead(d, 37, Pairs, |fields| / 2, fields, post, push);
      DictKeepsDistinctPairs(Meanings(fields));
  }

  /** Reads the items that stand behind a count. */
  lemma {:induction false} GroupRead(d: Dialect, tag: byte, kind: Kind, count: nat, items: seq<Wire>, post: bytes,
      push: bool)
    requires tag != CR && tag != LF && Classify([tag] + Decimal(count)) == Group(kind, count)
    requires |items| == if kind.Pairs? then 2 * count else count
    requires ParseItems(d, kind, EncodeAll(items) + post, 0, |items|, push) ==
        Done(Meanings(items), |EncodeAll(items)|, [])
    ensures var text := Resp.Header(tag, Decimal(count)) + EncodeAll(items);
      && ParseAt(d, text + post, 0, push) ==
         AfterHead(d, text + post, Group(kind, count), |Resp.Header(tag, Decimal(count))|, push)
      && ParseItems(d, kind, text + post, |Resp.Header(tag, Decimal(count))|, |items|, push) ==
         Done(Meanings(items), |text|, [])
  {
    hide Classify, ParseItems, Decimal, Meanings, EncodeAll, AfterHead, ParseAt;
    CountRead(count);
    var head := Resp.Header(tag, Decimal(count));
    HeaderRead(d, tag, Decimal(count), EncodeAll(items) + post, push);
    assert head + EncodeAll(items) + post == head + (EncodeAll(items) + post);
    ItemsShift(d, kind, head, EncodeAll(items) + post, 0, |items|, push);
  }

  lemma {:induction false} ItemsRoundTrip(d: Dialect, kind: Kind, items: seq<Wire>, post: bytes, push: bool,
      whole: Wire)
    requires forall i :: 0 <= i < |items| ==> Returnable(items[i]) && items[i] < whole
    requires kind.Pairs? ==> forall i :: 0 <= i < |items| && i % 2 == 0 ==> Hashable(Meaning(items[i]))
    ensures ParseItems(d, kind, EncodeAll(items) + post, 0, |items|, push) ==
        Done(Meanings(items), |EncodeAll(items)|, [])
    decreases whole, |items|
  {
    hide ParseAt, ParseItems, Encode, EncodeAll, Meaning, Meanings, Returnable, Hashable, Wants;
    NoWires(d, kind, post, push);
    if items != [] {
      var k := |items| - 1;
      var init, last := items[..k], items[k];
      OneMoreWire(items);
      ItemsRoundTrip(d, kind, init, Encode(last) + post, push, whole);
      assert EncodeAll(items) + post == EncodeAll(init) + (Encode(last) + post);
      RoundTrip(d, last, post, Wants(kind, k, push));
      ParseShift(d, EncodeAll(init), Encode(last) + post, 0, Wants(kind, k, push));
      NextItem(d, kind, EncodeAll(items) + post, k, push, Meanings(init), Meaning(last), |EncodeAll(init)|,
          |EncodeAll(items)|);
    }
  }

  lemma {:induction false} NoWires(d: Dialect, kind: Kind, post: bytes, push: bool)
    ensures ParseItems(d, kind, post, 0, 0, push) == Done([], 0, []) && EncodeAll([]) == [] && Meanings([]) == []
        && [] + post == post
  {
  }

  lemma {:induction false} OneMoreWire(items: seq<Wire>)
    requires items != []
    ensures var init, last := items[..|items| - 1], items[|items| - 1];
      EncodeAll(items) == EncodeAll(init) + Encode(last) && Meanings(items) == Meanings(init) + [Meaning(last)]
  {
    hide Encode, Meaning;
  }

  lemma {:induction false} NextItem(d: Dialect, kind: Kind, s: bytes, k: nat, push: bool, items: seq<Value>,
      item: Value, i: nat, j: nat)
    requires i <= |s| && |items| == k && ParseItems(d, kind, s, 0, k, push) == Done(items, i, [])
    requires ParseAt(d, s, i, Wants(kind, k, push)) == Done(item, j, [])
    requires kind.Pairs? && k % 2 == 1 ==> Hashable(items[k - 1])
    ensures ParseItems(d, kind, s, 0, k + 1, push) == Done(items + [item], j, [])
  {
    hide ParseAt, Hashable, Wants;
  }

  // ---------------------------------------------------------------- pushes in front of a reply

  /** A push frame: its items are never pushes themselves. */
  datatype Frame = Frame(items: seq<Wire>)

  predicate Deliverable(f: Frame) {
    |f.items| > 0 && forall i :: 0 <= i < |f.items| ==> Returnable(f.items[i])
  }

  function EncodeFrame(f: Frame): bytes {
    Resp.Header(62, Decimal(|f.items|)) + EncodeAll(f.items)
  }

  function EncodeFrames(frames: seq<Frame>): bytes {
    if frames == [] then [] else EncodeFrame(frames[0]) + EncodeFrames(frames[1..])
  }

  /** Each push, once and in order, for the handler its first item selects. */
  function Routed(handler: bool, frames: seq<Frame>): seq<Push>
    requires forall i :: 0 <= i < |frames| ==> Deliverable(frames[i])
  {
    if frames == [] then
      []
    else
      assert Deliverable(frames[0]);
      var message := Meanings(frames[0].items);
      assert |message| == |frames[0].items|;
      [Route(handler, message)] + Routed(handler, frames[1..])
  }

  lemma {:induction false} FrameRead(d: Dialect, f: Frame, post: bytes, push: bool)
    requires Deliverable(f)
    ensures ParseAt(d, EncodeFrame(f) + post, 0, push) ==
            AfterPush(d, EncodeFrame(f) + post, Route(d.handler, Meanings(f.items)), |EncodeFrame(f)|, [], push)
  {
    hide ParseItems, ParseAt, EncodeAll, Meanings, Decimal, Classify, AfterPush, Route;
    ItemsRoundTrip(d, PushItems, f.items, post, push, Array(f.items));
    CountRead(|f.items|);
    GroupRead(d, 62, PushItems, |f.items|, f.items, post, push);
  }

  predicate Says(w: Wire, text: bytes) {
    match w
    case Simple(line) => line == text
    case BlobString(data) => data == text
    case VerbatimString(_, data) => data == text
    case _ => false
  }

  /** The server tells which keys are no longer valid. */
  predicate Announces(f: Frame) {
    f.items != [] && Says(f.items[0], Ascii("invalidate"))
  }

  /**
   Each push has been handled once and in order: announcements by the invalidation handler, or by nobody when there
   is none, and everything else as a message.
   */
  predicate Delivered(handler: bool, frames: seq<Frame>, pushes: seq<Push>) {
    && |pushes| == |frames|
    && forall i :: 0 <= i < |frames| ==>
        && pushes[i].message == Meanings(frames[i].items)
        && (pushes[i].ToPubSub? <==> !Announces(frames[i]))
        && (pushes[i].ToInvalidation? <==> Announces(frames[i]) && handler)
  }

  lemma {:induction false} SaysItsMeaning(w: Wire, text: bytes)
    ensures Meaning(w) == Str(text) <==> Says(w, text)
  {
  }

  lemma {:induction false} RoutedAreDelivered(handler: bool, frames: seq<Frame>)
    requires forall i :: 0 <= i < |frames| ==> Deliverable(frames[i])
    ensures Delivered(handler, frames, Routed(handler, frames))
  {
    hide Meaning, Says;
    if frames != [] {
      assert Deliverable(frames[0]);
      SaysItsMeaning(frames[0].items[0], Ascii("invalidate"));
      RoutedAreDelivered(handler, frames[1..]);
    }
  }

  /** A read that did not ask for pushes returns the reply behind them, and hands each push over once, in order. */
  lemma {:induction false} PushesThenReply(d: Dialect, frames: seq<Frame>, w: Wire, post: bytes)
    requires Returnable(w) && forall i :: 0 <= i < |frames| ==> Deliverable(frames[i])
    ensures var p := ParseAt(d, EncodeFrames(frames) + Encode(w) + post, 0, false);
      && p.Done? && p.value == Meaning(w) && p.next == |EncodeFrames(frames)| + |Encode(w)|
      && Delivered(d.handler, frames, p.pushes)
  {
    hide *;
    RoutedThenReply(d, frames, w, post);
    RoutedAreDelivered(d.handler, frames);
  }

  lemma {:induction false} RoutedThenReply(d: Dialect, frames: seq<Frame>, w: Wire, post: bytes)
    requires Returnable(w) && forall i :: 0 <= i < |frames| ==> Deliverable(frames[i])
    ensures ParseAt(d, EncodeFrames(frames) + Encode(w) + post, 0, false) ==
            Done(Meaning(w), |EncodeFrames(frames)| + |Encode(w)|, Routed(d.handler, frames))
  {
    hide ParseAt, Encode, EncodeFrames, Meaning, EncodeFrame, Route, Routed, Deliverable;
    FirstFrame(d.handler, frames);
    if frames == [] {
      RoundTrip(d, w, post, false);
      assert EncodeFrames(frames) + Encode(w) + post == Encode(w) + post;
    } else {
      var head, rest := EncodeFrame(frames[0]), EncodeFrames(frames[1..]) + Encode(w) + post;
      assert EncodeFrames(frames) + Encode(w) + post == head + rest;
      RoutedThenReply(d, frames[1..], w, post);
      BehindFrame(d, frames[0], rest, Meaning(w), |rest| - |post|, Routed(d.handler, frames[1..]));
    }
  }

  lemma {:induction false} FirstFrame(handler: bool, frames: seq<Frame>)
    requires forall i :: 0 <= i < |frames| ==> Deliverable(frames[i])
    ensures frames == [] ==> EncodeFrames(frames) == [] && Routed(handler, frames) == []
    ensures frames != [] ==>
      && EncodeFrames(frames) == EncodeFrame(frames[0]) + EncodeFrames(frames[1..]) && |Meanings(frames[0].items)| > 0
      && Routed(handler, frames) == [Route(handler, Meanings(frames[0].items))] + Routed(handler, frames[1..])
  {
    hide Route, EncodeFrame;
    if frames != [] {
      assert Deliverable(frames[0]);
    }
  }

  lemma {:induction false} BehindFrame(d: Dialect, f: Frame, rest: bytes, value: Value, next: nat, pushes: seq<Push>)
    requires Deliverable(f) && next <= |rest| && ParseAt(d, rest, 0, false) == Done(value, next, pushes)
    ensures |Meanings(f.items)| > 0
    ensures ParseAt(d, EncodeFrame(f) + rest, 0, false) ==
            Done(value, |EncodeFrame(f)| + next, [Route(d.handler, Meanings(f.items))] + pushes)
  {
    FrameHasItems(f);
    hide ParseAt, EncodeFrame, Route, AfterPush, Deliverable, Meanings, Returnable;
    var head := EncodeFrame(f);
    FrameRead(d, f, rest, false);
    ReplyShifted(d, head, rest, value, next, pushes);
    PushPassed(d, head + rest, Route(d.handler, Meanings(f.items)), |head|, value, |head| + next, pushes);
  }

  lemma {:induction false} FrameHasItems(f: Frame)
    requires Deliverable(f)
    ensures |Meanings(f.items)| > 0
  {
    hide Returnable;
  }

  /** Bytes in front of a reply move it, and nothing else. */
  lemma {:induction false} ReplyShifted(d: Dialect, head: bytes, rest: bytes, value: Value, next: nat,
      pushes: seq<Push>)
    requires next <= |rest| && ParseAt(d, rest, 0, false) == Done(value, next, pushes)
    ensures ParseAt(d, head + rest, |head|, false) == Done(value, |head| + next, pushes)
  {
    hide ParseAt;
    ParseShift(d, head, rest, 0, false);
  }

  /**
   A push in front of an item: a caller that asked for pushes gets it in the item's place among the items of a push
   and the values of a map; everywhere else it is handed over, and the item is the reply behind it.
   */
  lemma {:induction false} PushInside(d: Dialect, kind: Kind, before: bytes, items: seq<Value>, pushes: seq<Push>,
      f: Frame, w: Wire, post: bytes, push: bool)
    requires Deliverable(f) && Returnable(w) && Hashable(Meaning(w))
    requires var s := before + (EncodeFrame(f) + (Encode(w) + post));
      ParseItems(d, kind, s, 0, |items|, push) == Done(items, |before|, pushes)
    requires kind.Pairs? && |items| % 2 == 1 ==> Hashable(items[|items| - 1])
    ensures var s := before + (EncodeFrame(f) + (Encode(w) + post));
      var p := ParseItems(d, kind, s, 0, |items| + 1, push);
      && p.Done? && |p.pushes| == |pushes| + 1 && p.pushes[..|pushes|] == pushes
      && Delivered(d.handler, [f], p.pushes[|pushes|..])
      && if push && (kind.PushItems? || (kind.Pairs? && |items| % 2 == 1)) then
           && p.next == |before| + |EncodeFrame(f)|
           && p.value == items + [if Announces(f) then Nil else List(Meanings(f.items))]
         else
           p.next == |before| + |EncodeFrame(f)| + |Encode(w)| && p.value == items + [Meaning(w)]
  {
    hide ParseAt, EncodeFrame, Encode, Meaning, Meanings, Route, Announces, Deliverable, Returnable, Hashable;
    var rest := EncodeFrame(f) + (Encode(w) + post);
    var s := before + rest;
    if Wants(kind, |items|, push) {
      FirstPush(d, f, Encode(w) + post);
      ParseShift(d, before, rest, 0, true);
    } else {
      assert EncodeFrames([f]) == EncodeFrame(f) by {
        assert EncodeFrames([f][1..]) == [];
      }
      PushesThenReply(d, [f], w, post);
      assert EncodeFrame(f) + Encode(w) + post == rest;
      ParseShift(d, before, rest, 0, false);
    }
  }

  lemma {:induction false} PushPassed(d: Dialect, s: bytes, routed: Push, i: nat, value: Value, next: nat,
      pushes: seq<Push>)
    requires i <= |s| && ParseAt(d, s, i, false) == Done(value, next, pushes)
    ensures AfterPush(d, s, routed, i, [], false) == Done(value, next, [routed] + pushes)
  {
    hide ParseAt;
  }

  /** A read that asked for pushes returns at the first one. */
  lemma {:induction false} FirstPush(d: Dialect, f: Frame, post: bytes)
    requires Deliverable(f)
    ensures var p := ParseAt(d, EncodeFrame(f) + post, 0, true);
      && p.Done? && p.next == |EncodeFrame(f)| && Delivered(d.handler, [f], p.pushes)
      && p.value == if Announces(f) then Nil else List(Meanings(f.items))
  {
    FrameHasItems(f);
    hide ParseAt, EncodeFrame, Says, Meaning, Meanings;
    FrameRead(d, f, post, true);
    SaysItsMeaning(f.items[0], Ascii("invalidate"));
    FirstMeaning(f.items);
  }

  lemma {:induction false} FirstMeaning(items: seq<Wire>)
    requires items != []
    ensures |Meanings(items)| == |items| && Meanings(items)[0] == Meaning(items[0])
  {
  }
}
