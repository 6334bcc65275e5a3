/** The blocking RESP3 parser over the same buffer as the RESP2 one. */
module BlockingParser3 {
  import opened Bytes
  import Resp
  import opened Resp3
  import opened Resp3Wire
  import SocketIO

  datatype Outcome<+T> = Ok(value: T) | Raised(error: SocketIO.IoError) | Refused(fault: Fault)

  class Resp3Parser {
    const buffer: SocketIO.SocketBuffer
    /** Whether set_invalidation_push_handler has been called. */
    var invalidationHandler: bool
    /** The calls of handle_push_response so far. */
    var handled: seq<Push>

    constructor (buffer: SocketIO.SocketBuffer)
      ensures this.buffer == buffer && !invalidationHandler && handled == []
    {
      this.buffer := buffer;
      invalidationHandler, handled := false, [];
    }

    method SetInvalidationPushHandler()
      modifies this`invalidationHandler
      ensures invalidationHandler
    {
      invalidationHandler := true;
    }

    /** How this parser reads. */
    function Reading(): Dialect
      reads this`invalidationHandler
    {
      Dialect(invalidationHandler, Resp.Lenient)
    }

    /** The buffer only grew behind the position, and the pushes of `log` were handled. */
    twostate predicate Continued(log: seq<Push>)
      reads this, buffer, buffer.sock
    {
      && buffer.Valid() && old(buffer.buf) <= buffer.buf && buffer.Total() == old(buffer.Total())
      && handled == old(handled) + log
    }

    /** A read that fails has nothing more to read, unless the socket was interrupted. */
    twostate predicate Blocked(failed: bool)
      reads this, buffer, buffer.sock
    {
      old(SocketIO.Uninterrupted(buffer.sock.script)) ==>
        SocketIO.Uninterrupted(buffer.sock.script) && (failed ==> buffer.sock.script == [])
    }

    /** _read_response(push_request=push), for the reply that starts at the position. */
    method ReadReply(push: bool) returns (r: Outcome<Value>, ghost log: seq<Push>)
      requires buffer.Valid()
      modifies buffer, buffer.sock, this`handled
      ensures Continued(log)
      ensures Blocked(r.Raised?)
      ensures r.Raised? ==> !ParseAt(Strict(Reading()), buffer.buf, old(buffer.pos), push).Done?
      ensures r.Ok? ==> ParseAt(Reading(), buffer.buf, old(buffer.pos), push) == Done(r.value, buffer.pos, log)
      ensures r.Refused? ==> ParseAt(Reading(), buffer.buf, old(buffer.pos), push) == Bad(r.fault)
      decreases |buffer.Total()| - buffer.pos, 0
    {
      hide Classify, Resp.FindLine, ParseItems, ParseAt, AfterHead;
      log := [];
      ghost var start, h := buffer.pos, Reading();
      var raw := buffer.ReadLine();
      if raw.Raised? {
        StuckLine(h, buffer.buf, start, push);
        return Raised(raw.error), [];
      }
      ghost var line := buffer.buf;
      var head := Dispatch(raw.value);
      r, log := ReadBody(head, push);
      HeadKept(line, buffer.buf, start);
      LineRead(h, buffer.buf, start, push);
      StuckLine(h, buffer.buf, start, push);
    }

    /** What follows a header line. */
    method ReadBody(head: Head, push: bool) returns (r: Outcome<Value>, ghost log: seq<Push>)
      requires buffer.Valid()
      modifies buffer, buffer.sock, this`handled
      ensures Continued(log)
      ensures Blocked(r.Raised?)
      ensures r.Raised? ==> !AfterHead(Strict(Reading()), buffer.buf, head, old(buffer.pos), push).Done?
      ensures r.Ok? ==> AfterHead(Reading(), buffer.buf, head, old(buffer.pos), push) == Done(r.value, buffer.pos, log)
      ensures r.Refused? ==> AfterHead(Reading(), buffer.buf, head, old(buffer.pos), push) == Bad(r.fault)
      decreases |buffer.Total()| - buffer.pos, if head.Group? then head.count + 3 else 0
    {
      hide ParseItems, ParseAt, DictOf, Route, AfterPush, Finish;
      log := [];
      match head
      case Reject(fault) =>
        r := Refused(fault);
      case Whole(value) =>
        r := Ok(value);
      case Payload(form, length) =>
        var data := buffer.Read(length);
        if data.Raised? {
          return Raised(data.error), [];
        }
        r := FinishPayload(form, data.value, buffer.pos);
      case Group(Plain, count) =>
        var items;
        items, log := ReadItems(Plain, count, push);
        r := match items
          case Ok(values) => Ok(List(values))
          case Raised(error) => Raised(error)
          case Refused(fault) => Refused(fault);
      case Group(Pairs, count) =>
        r, log := ReadMap(count, push);
      case Group(PushItems, count) =>
        r, log := ReadPush(count, push);
    }

    /** Item k of a group of n that starts at `next`, the k before it having been read. */
    method ReadItem(kind: Kind, k: nat, n: nat, push: bool, ghost next: nat, ghost items: seq<Value>,
        ghost pushes: seq<Push>)
      returns (r: Outcome<Value>, ghost log: seq<Push>)
      requires buffer.Valid() && next <= |buffer.buf| && k < n
      requires ParseItems(Reading(), kind, buffer.buf, next, k, push) == Done(items, buffer.pos, pushes)
      modifies buffer, buffer.sock, this`handled
      ensures Continued(log) && next <= |buffer.buf|
      ensures Blocked(r.Raised?)
      ensures r.Raised? ==> !ParseItems(Strict(Reading()), kind, buffer.buf, next, n, push).Done?
      ensures r.Refused? ==> ParseItems(Reading(), kind, buffer.buf, next, n, push) == Bad(r.fault)
      ensures r.Ok? ==> |items| == k
      ensures r.Ok? ==>
        ParseItems(Reading(), kind, buffer.buf, next, k + 1, push) ==
        (if kind.Pairs? && k % 2 == 1 && !Hashable(items[k - 1]) then Bad(TypeFault)
         else Done(items + [r.value], buffer.pos, pushes + log))
      decreases |buffer.Total()| - buffer.pos, 1
    {
      hide ParseAt, ParseItems;
      ghost var before, h := buffer.buf, Reading();
      r, log := ReadReply(Wants(kind, k, push));
      ItemsExtend(h, kind, before, buffer.buf, next, k, push);
      OneMoreItem(h, kind, buffer.buf, next, k, push);
      if r.Raised? {
        StuckItem(h, kind, buffer.buf, next, k, n, push);
      } else if r.Refused? {
        ItemsPrefix(h, kind, buffer.buf, next, k + 1, n, push);
      }
    }

    /** The list comprehension of an array, a set or a push. */
    method ReadItems(kind: Kind, count: nat, push: bool) returns (r: Outcome<seq<Value>>, ghost log: seq<Push>)
      requires buffer.Valid() && !kind.Pairs?
      modifies buffer, buffer.sock, this`handled
      ensures Continued(log)
      ensures Blocked(r.Raised?)
      ensures r.Raised? ==> !ParseItems(Strict(Reading()), kind, buffer.buf, old(buffer.pos), count, push).Done?
      ensures r.Ok? ==>
        ParseItems(Reading(), kind, buffer.buf, old(buffer.pos), count, push) == Done(r.value, buffer.pos, log)
      ensures r.Refused? ==>
        ParseItems(Reading(), kind, buffer.buf, old(buffer.pos), count, push) == Bad(r.fault)
      decreases |buffer.Total()| - buffer.pos, count + 1
    {
      hide ParseItems;
      ghost var next := buffer.pos;
      var items: seq<Value> := [];
      log := [];
      NoItems(Reading(), kind, buffer.buf, next, push);
      for k := 0 to count
        invariant Continued(log) && Blocked(false) && next <= buffer.pos
        invariant ParseItems(Reading(), kind, buffer.buf, next, k, push) == Done(items, buffer.pos, log)
      {
        var item, more := ReadItem(kind, k, count, push, next, items, log);
        log := log + more;
        if item.Raised? {
          return Raised(item.error), log;
        }
        if item.Refused? {
          return Refused(item.fault), log;
        }
        items := items + [item.value];
      }
      r := Ok(items);
    }

    /** The loop that fills a dict key by key. */
    method ReadMap(count: nat, push: bool) returns (r: Outcome<Value>, ghost log: seq<Push>)
      requires buffer.Valid()
      modifies buffer, buffer.sock, this`handled
      ensures Continued(log)
      ensures Blocked(r.Raised?)
      ensures r.Raised? ==> !AfterHead(Strict(Reading()), buffer.buf, Group(Pairs, count), old(buffer.pos), push).Done?
      ensures r.Ok? ==>
        AfterHead(Reading(), buffer.buf, Group(Pairs, count), old(buffer.pos), push) == Done(r.value, buffer.pos, log)
      ensures r.Refused? ==>
        AfterHead(Reading(), buffer.buf, Group(Pairs, count), old(buffer.pos), push) == Bad(r.fault)
      decreases |buffer.Total()| - buffer.pos, count + 1
    {
      hide ParseItems, DictOf, Insert, AfterHead, Hashable;
      ghost var next := buffer.pos;
      var dict: seq<(Value, Value)> := [];
      ghost var fields: seq<Value> := [];
      log := [];
      NoItems(Reading(), Pairs, buffer.buf, next, push);
      EmptyDict();
      for k := 0 to count
        invariant Continued(log) && Blocked(false) && next <= buffer.pos && |fields| == 2 * k
        invariant ParseItems(Reading(), Pairs, buffer.buf, next, 2 * k, push) == Done(fields, buffer.pos, log)
        invariant dict == DictOf(fields)
      {
        Parity(k);
        var key, keyLog := ReadItem(Pairs, 2 * k, 2 * count, push, next, fields, log);
        log := log + keyLog;
        if !key.Ok? {
          MapVerdicts(Reading(), buffer.buf, next, count, push);
          return if key.Raised? then Raised(key.error) else Refused(key.fault), log;
        }
        ghost var keyed := fields + [key.value];
        var value, valueLog := ReadItem(Pairs, 2 * k + 1, 2 * count, push, next, keyed, log);
        log := log + valueLog;
        if !value.Ok? {
          MapVerdicts(Reading(), buffer.buf, next, count, push);
          return if value.Raised? then Raised(value.error) else Refused(value.fault), log;
        }
        if !Hashable(key.value) {
          ItemsPrefix(Reading(), Pairs, buffer.buf, next, 2 * k + 2, 2 * count, push);
          MapVerdict(Reading(), buffer.buf, next, count, push);
          return Refused(TypeFault), log;
        }
        FilledDict(fields, key.value, value.value);
        fields := keyed + [value.value];
        dict := Insert(dict, key.value, value.value);
      }
      MapVerdict(Reading(), buffer.buf, next, count, push);
      r := Ok(Dict(dict));
    }

    /** A push is handled; then it is the result, or the next reply is. */
    method ReadPush(count: nat, push: bool) returns (r: Outcome<Value>, ghost log: seq<Push>)
      requires buffer.Valid()
      modifies buffer, buffer.sock, this`handled
      ensures Continued(log)
      ensures Blocked(r.Raised?)
      ensures r.Raised? ==>
          !AfterHead(Strict(Reading()), buffer.buf, Group(PushItems, count), old(buffer.pos), push).Done?
      ensures r.Ok? ==>
        AfterHead(Reading(), buffer.buf, Group(PushItems, count), old(buffer.pos), push) ==
            Done(r.value, buffer.pos, log)
      ensures r.Refused? ==>
        AfterHead(Reading(), buffer.buf, Group(PushItems, count), old(buffer.pos), push) == Bad(r.fault)
      decreases |buffer.Total()| - buffer.pos, count + 2
    {
      hide ParseAt, ParseItems, Route;
      ghost var next, h := buffer.pos, Reading();
      var items;
      items, log := ReadItems(PushItems, count, push);
      if items.Raised? {
        return Raised(items.error), log;
      }
      if items.Refused? {
        return Refused(items.fault), log;
      }
      if items.value == [] {
        return Refused(IndexFault), log;
      }
      ghost var before := buffer.buf;
      var routed := Route(invalidationHandler, items.value);
      handled := handled + [routed];
      log := log + [routed];
      if push {
        return Ok(Returned(routed)), log;
      }
      ghost var more;
      r, more := ReadReply(false);
      log := log + more;
      ItemsExtend(h, PushItems, before, buffer.buf, next, count, push);
      if r.Raised? {
        StuckPush(h, buffer.buf, next, count);
      }
    }

    /** The branches on the first byte of a line. */
    method Dispatch(raw: bytes) returns (head: Head)
      ensures head == Classify(raw)
    {
      if raw == [] {
        return Reject(ConnectionFault);
      }
      var tag, text := raw[0], raw[1..];
      if tag == 45 {
        return if Resp.RaisesConnectionError(text) then Reject(ConnectionFault) else Whole(Err(text));
      } else if tag == 33 {
        return Resp3.Sized(text, BlobError);
      } else if tag == 43 {
        return Whole(Str(text));
      } else if tag == 95 {
        return Whole(Nil);
      } else if tag == 58 || tag == 40 {
        var n := ParseInt(text);
        return if n.None? then Reject(ValueFault) else Whole(Num(n.value));
      } else if tag == 44 {
        return Whole(Double(text));
      } else if tag == 35 {
        return Whole(Bool(text == Ascii("t")));
      } else if tag == 36 {
        return Resp3.Sized(text, Blob);
      } else if tag == 61 {
        return Resp3.Sized(text, Verbatim);
      } else if tag == 42 || tag == 126 {
        return Counted(text, Plain);
      } else if tag == 37 {
        return Counted(text, Pairs);
      } else if tag == 62 {
        return Counted(text, PushItems);
      }
      return Reject(InvalidResponse);
    }

    method FinishPayload(form: Form, data: bytes, ghost next: nat) returns (r: Outcome<Value>)
      ensures r.Ok? ==> Finish(form, data, next) == Done(r.value, next, [])
      ensures r.Refused? ==> Finish(form, data, next) == Bad(r.fault)
      ensures !r.Raised?
    {
      match form
      case Blob => r := Ok(Str(data));
      case Verbatim => r := Ok(Str(if |data| < 4 then [] else data[4..]));
      case BlobError =>
        r := if Resp.RaisesConnectionError(data) then Refused(ConnectionFault) else Ok(Err(data));
    }

    /** read_response: one finished reply is consumed; after any failure the buffer is rewound. */
    method ReadResponse(push: bool) returns (r: Outcome<Value>, ghost log: seq<Push>)
      requires buffer.Valid()
      modifies buffer, buffer.sock, this`handled
      ensures buffer.Valid() && handled == old(handled) + log
      ensures r.Ok? ==>
        exists n :: 0 <= n <= old(|buffer.Unread()|) && buffer.Unread() == old(buffer.Unread())[n..] &&
          ParseAt(Reading(), old(buffer.Unread()), 0, push) == Done(r.value, n, log)
      ensures r.Ok? && buffer.pos == |buffer.buf| ==> buffer.buf == []
      ensures !r.Ok? ==> buffer.Unread() == old(buffer.Unread())
      ensures r.Refused? ==> ParseAt(Reading(), old(buffer.Unread()), 0, push) == Bad(r.fault)
      ensures r.Raised? ==> !ParseAt(Strict(Reading()), buffer.buf[buffer.pos..], 0, push).Done?
      ensures Blocked(r.Raised?)
    {
      hide ParseAt;
      var pos := buffer.pos;
      ghost var all := buffer.Total();
      buffer.RestOfTotal();
      r, log := ReadReply(push);
      ReadFrom(Reading(), buffer.buf, buffer.Total(), pos, push);
      if !r.Ok? {
        ReadFrom(Strict(Reading()), buffer.buf, buffer.Total(), pos, push);
        buffer.Rewind(pos);
        buffer.RestOfTotal();
      } else {
        buffer.RestOfTotal();
        TailOfTail(all, pos, buffer.pos - pos);
        buffer.Purge();
      }
    }

    /**
     With pushes in front of a reply, a read that finishes returns the reply, has handed over every push
     once and in order, and has consumed exactly those frames; a read that is not interrupted finishes.
     */
    method ReadBehindPushes(ghost frames: seq<Frame>, ghost w: Wire, ghost rest: bytes) returns (r: Outcome<Value>)
      requires buffer.Valid() && Returnable(w) && forall i :: 0 <= i < |frames| ==> Deliverable(frames[i])
      requires buffer.Unread() == EncodeFrames(frames) + Encode(w) + rest
      modifies buffer, buffer.sock, this`handled
      ensures buffer.Valid() && !r.Refused?
      ensures r.Ok? ==>
        && r.value == Meaning(w) && buffer.Unread() == rest && old(handled) <= handled
        && Delivered(invalidationHandler, frames, handled[|old(handled)|..])
      ensures r.Raised? ==> buffer.Unread() == old(buffer.Unread()) && buffer.sock.script != []
      ensures old(SocketIO.Uninterrupted(buffer.sock.script)) ==> r.Ok?
    {
      hide ParseAt, Encode, EncodeFrames, Delivered, SocketIO.Uninterrupted;
      PushesThenReply(Reading(), frames, w, rest);
      PushesThenReply(Strict(Reading()), frames, w, rest);
      assert (EncodeFrames(frames) + Encode(w) + rest)[|EncodeFrames(frames)| + |Encode(w)|..] == rest;
      ghost var log;
      r, log := ReadResponse(false);
      if r.Raised? {
        StillMissing(Strict(Reading()), buffer.buf[buffer.pos..], SocketIO.DataOf(buffer.sock.script),
            EncodeFrames(frames) + Encode(w) + rest);
      }
    }
  }

  /** A read that did not complete has bytes to wait for. */
  lemma {:induction false} StillMissing(d: Dialect, received: bytes, future: bytes, all: bytes)
    requires all == received + future && ParseAt(d, all, 0, false).Done? && !ParseAt(d, received, 0, false).Done?
    ensures future != []
  {
    hide ParseAt;
    assert received + [] == received;
  }

  /** What was read of the bytes received so far is what the unread bytes begin with. */
  lemma {:induction false} ReadFrom(h: Dialect, got: bytes, all: bytes, pos: nat, push: bool)
    requires pos <= |got| && got <= all
    ensures var p, whole := ParseAt(h, got, pos, push), ParseAt(h, all[pos..], 0, push);
      && (p.Done? ==> p.next >= pos && whole == Done(p.value, p.next - pos, p.pushes))
      && (p.Bad? ==> whole == p)
      && (ParseAt(h, got[pos..], 0, push).Done? <==> p.Done?)
  {
    hide ParseAt;
    assert got[..pos] + got[pos..] == got && all[..pos] + all[pos..] == all;
    ParseShift(h, got[..pos], got[pos..], 0, push);
    ParseShift(h, all[..pos], all[pos..], 0, push);
    if !ParseAt(h, got, pos, push).More? {
      ParseExtends(h, got, all, pos, push);
    }
  }

  lemma {:induction false} LineRead(h: Dialect, s: bytes, start: nat, push: bool)
    requires start <= |s|
    ensures var line := Resp.FindLine(h.mode, s, start);
      line.Found? ==> ParseAt(h, s, start, push) == AfterHead(h, s, Classify(s[start..line.stop]), line.stop + 2, push)
  {
  }

  /** What stops the strict reader at a line, or behind it, stops it for the reply. */
  lemma {:induction false} StuckLine(h: Dialect, s: bytes, start: nat, push: bool)
    requires start <= |s|
    ensures !Resp.FindLine(Resp.Strict, s, start).Found? ==> !ParseAt(Strict(h), s, start, push).Done?
    ensures var line := Resp.FindLine(Resp.Lenient, s, start);
      line.Found? && !AfterHead(Strict(h), s, Classify(s[start..line.stop]), line.stop + 2, push).Done? ==>
        !ParseAt(Strict(h), s, start, push).Done?
  {
    hide Classify, AfterHead;
  }

  /** If one item cannot be finished, neither can the group around it. */
  lemma {:induction false} StuckItem(h: Dialect, kind: Kind, s: bytes, i: nat, k: nat, n: nat, push: bool)
    requires i <= |s| && k < n && ParseItems(Lenient(h), kind, s, i, k, push).Done?
    requires !ParseAt(Strict(h), s, ParseItems(Lenient(h), kind, s, i, k, push).next, Wants(kind, k, push)).Done?
    ensures !ParseItems(Strict(h), kind, s, i, n, push).Done?
  {
    hide ParseAt, ParseItems, Wants;
    if ParseItems(Strict(h), kind, s, i, k, push).Done? {
      StrictItemsAreLenient(h, kind, s, i, k, push);
      OneMoreItem(Strict(h), kind, s, i, k, push);
      ItemsPrefix(Strict(h), kind, s, i, k + 1, n, push);
    } else {
      ItemsPrefix(Strict(h), kind, s, i, k, n, push);
    }
  }

  /** If the reply behind a push cannot be finished, the read cannot. */
  lemma {:induction false} StuckPush(h: Dialect, s: bytes, i: nat, count: nat)
    requires i <= |s| && ParseItems(Lenient(h), PushItems, s, i, count, false).Done?
    requires !ParseAt(Strict(h), s, ParseItems(Lenient(h), PushItems, s, i, count, false).next, false).Done?
    ensures !AfterHead(Strict(h), s, Group(PushItems, count), i, false).Done?
  {
    hide ParseAt, ParseItems, Route;
    if ParseItems(Strict(h), PushItems, s, i, count, false).Done? {
      StrictItemsAreLenient(h, PushItems, s, i, count, false);
    }
  }

  lemma {:induction false} HeadKept(s: bytes, t: bytes, start: nat)
    requires s <= t && start <= |s| && Resp.FindLine(Resp.Lenient, s, start).Found?
    ensures Resp.FindLine(Resp.Lenient, t, start) == Resp.FindLine(Resp.Lenient, s, start)
    ensures var stop := Resp.FindLine(Resp.Lenient, s, start).stop; t[start..stop] == s[start..stop]
  {
  }

  lemma {:induction false} NoItems(h: Dialect, kind: Kind, s: bytes, i: nat, push: bool)
    requires i <= |s|
    ensures ParseItems(h, kind, s, i, 0, push) == Done([], i, [])
  {
  }

  lemma {:induction false} OneMoreItem(h: Dialect, kind: Kind, s: bytes, i: nat, k: nat, push: bool)
    requires i <= |s| && ParseItems(h, kind, s, i, k, push).Done?
    ensures var done := ParseItems(h, kind, s, i, k, push);
      ParseItems(h, kind, s, i, k + 1, push) ==
        match ParseAt(h, s, done.next, Wants(kind, k, push))
        case More => More
        case Bad(fault) => Bad(fault)
        case Done(item, j, more) =>
          if kind.Pairs? && k % 2 == 1 && !Hashable(done.value[k - 1]) then Bad(TypeFault)
          else Done(done.value + [item], j, done.pushes + more)
  {
    hide ParseAt, Wants, Hashable;
  }

  lemma {:induction false} ItemsPrefix(h: Dialect, kind: Kind, s: bytes, i: nat, k: nat, n: nat, push: bool)
    requires i <= |s| && k <= n && !ParseItems(h, kind, s, i, k, push).Done?
    ensures ParseItems(h, kind, s, i, n, push) == ParseItems(h, kind, s, i, k, push)
    decreases n
  {
    if k < n {
      ItemsPrefix(h, kind, s, i, k, n - 1, push);
    }
  }

  lemma {:induction false} MapVerdict(h: Dialect, s: bytes, i: nat, count: nat, push: bool)
    requires i <= |s|
    ensures var p, q := ParseItems(h, Pairs, s, i, 2 * count, push), AfterHead(h, s, Group(Pairs, count), i, push);
      && (p.Done? ==> q == Done(Dict(DictOf(p.value)), p.next, p.pushes))
      && (p.Bad? ==> q == Bad(p.fault)) && (p.More? ==> q == More)
  {
  }

  /** What becomes of a map whose fields could not all be read. */
  lemma {:induction false} MapVerdicts(h: Dialect, s: bytes, i: nat, count: nat, push: bool)
    requires i <= |s|
    ensures var p, q := ParseItems(h, Pairs, s, i, 2 * count, push), AfterHead(h, s, Group(Pairs, count), i, push);
      p.Bad? ==> q == Bad(p.fault)
    ensures !ParseItems(Strict(h), Pairs, s, i, 2 * count, push).Done? ==>
      !AfterHead(Strict(h), s, Group(Pairs, count), i, push).Done?
  {
    hide ParseItems, AfterHead;
    MapVerdict(h, s, i, count, push);
    MapVerdict(Strict(h), s, i, count, push);
  }

  lemma {:induction false} Parity(k: nat)
    ensures 2 * k % 2 == 0 && (2 * k + 1) % 2 == 1
  {
  }

  lemma {:induction false} EmptyDict()
    ensures DictOf([]) == []
  {
  }

  lemma {:induction false} FilledDict(fields: seq<Value>, key: Value, value: Value)
    ensures DictOf(fields + [key] + [value]) == Insert(DictOf(fields), key, value)
  {
    var all := fields + [key] + [value];
    assert all[..|all| - 2] == fields;
  }
}
