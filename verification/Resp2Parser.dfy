/** The blocking RESP2 parser: recursive descent over a buffer that is rewound when a read fails. */
module BlockingParser {
  import opened Bytes
  import opened Resp
  import opened SocketIO

  /** If one item cannot be finished, neither can the array around it. */
  lemma {:induction false} StuckItem(s: bytes, i: nat, n: nat, k: nat)
    requires i <= |s| && k < n
    requires FindLine(Lenient, s, i).Found?
    requires Classify(Lenient, s[i..FindLine(Lenient, s, i).stop]) == Items(n)
    requires ParseItems(Lenient, s, FindLine(Lenient, s, i).stop + 2, k).Done?
    requires !ParseAt(Strict, s, ParseItems(Lenient, s, FindLine(Lenient, s, i).stop + 2, k).next).Done?
    ensures !ParseAt(Strict, s, i).Done?
  {
    hide Classify, FindLine;
    if ParseAt(Strict, s, i).Done? {
      StrictIsLenient(s, i);
      SameHead(s, i);
      var next := FindLine(Lenient, s, i).stop + 2;
      if !ParseItems(Strict, s, next, k + 1).Done? {
        ItemsPrefix(Strict, s, next, k + 1, n);
      }
      if ParseItems(Strict, s, next, k).Done? {
        StrictItemsAreLenient(s, next, k);
      }
    }
  }

  lemma {:induction false} SameHead(s: bytes, i: nat)
    requires i <= |s| && ParseAt(Strict, s, i).Done?
    ensures FindLine(Lenient, s, i) == FindLine(Strict, s, i) && FindLine(Strict, s, i).Found?
    ensures Classify(Lenient, s[i..FindLine(Strict, s, i).stop]) == Classify(Strict, s[i..FindLine(Strict, s, i).stop])
  {
  }

  /** A read that did not complete has bytes to wait for. */
  lemma {:induction false} StillMissing(received: bytes, future: bytes, all: bytes)
    requires all == received + future && ParseAt(Strict, all, 0).Done? && !ParseAt(Strict, received, 0).Done?
    ensures future != []
  {
    hide ParseAt;
    assert received + [] == received;
  }

  class Resp2Parser {
    const buffer: SocketBuffer

    constructor (buffer: SocketBuffer)
      ensures this.buffer == buffer
    {
      this.buffer := buffer;
    }

    /** _read_response: parses one reply from the position and leaves the position behind it. */
    method ReadReply() returns (r: Outcome<Value>)
      requires buffer.Valid()
      modifies buffer, buffer.sock
      ensures buffer.Valid() && old(buffer.buf) <= buffer.buf && buffer.Total() == old(buffer.Total())
      ensures |buffer.sock.script| <= old(|buffer.sock.script|)
      ensures r.Ok? ==> ParseAt(Lenient, buffer.buf, old(buffer.pos)) == Done(r.value, buffer.pos)
      ensures r.Refused? ==> ParseAt(Lenient, buffer.buf, old(buffer.pos)) == Bad(r.fault)
      ensures r.Raised? ==> !ParseAt(Strict, buffer.buf, old(buffer.pos)).Done?
      ensures r.Raised? ==> buffer.sock.script == [] || |buffer.sock.script| < old(|buffer.sock.script|)
      decreases |buffer.Total()| - buffer.pos, 0
    {
      hide Classify, FindLine, ParseItems;
      ghost var start := buffer.pos;
      var raw := buffer.ReadLine();
      if raw.Raised? {
        assert !ParseAt(Strict, buffer.buf, start).Done?;
        return Raised(raw.error);
      }
      ghost var line := buffer.buf;
      var head := Dispatch(Lenient, raw.value);
      match head
      case Reject(fault) =>
        return Refused(fault);
      case Whole(value) =>
        return Ok(value);
      case Payload(length) =>
        ghost var next := buffer.pos;
        var data := buffer.Read(length);
        LineExtends(Lenient, line, buffer.buf, start);
        assert buffer.buf[start..next - 2] == raw.value;
        if data.Raised? {
          if ParseAt(Strict, buffer.buf, start).Done? {
            SameHead(buffer.buf, start);
          }
          return Raised(data.error);
        }
        return Ok(Str(data.value));
      case Items(count) =>
        r := ReadItems(count, start);
    }

    /** The list comprehension of an array reply, whose header line started at `start`. */
    method ReadItems(count: nat, ghost start: nat) returns (r: Outcome<Value>)
      requires buffer.Valid() && start + 2 <= buffer.pos
      requires FindLine(Lenient, buffer.buf, start) == Found(buffer.pos - 2)
      requires Classify(Lenient, buffer.buf[start..buffer.pos - 2]) == Items(count)
      modifies buffer, buffer.sock
      ensures buffer.Valid() && old(buffer.buf) <= buffer.buf && buffer.Total() == old(buffer.Total())
      ensures |buffer.sock.script| <= old(|buffer.sock.script|)
      ensures r.Ok? ==> ParseAt(Lenient, buffer.buf, start) == Done(r.value, buffer.pos)
      ensures r.Refused? ==> ParseAt(Lenient, buffer.buf, start) == Bad(r.fault)
      ensures r.Raised? ==> !ParseAt(Strict, buffer.buf, start).Done?
      ensures r.Raised? ==> buffer.sock.script == [] || |buffer.sock.script| < old(|buffer.sock.script|)
      decreases |buffer.Total()| - buffer.pos, 1
    {
      hide Classify, FindLine, ParseItems, ParseAt;
      ghost var next := buffer.pos;
      ghost var text := buffer.buf[start..next - 2];
      var items: seq<Value> := [];
      assert ParseItems(Lenient, buffer.buf, next, 0) == Done([], next) by { NoItems(Lenient, buffer.buf, next); }
      while |items| < count
        invariant next <= buffer.pos <= |buffer.buf| && |items| <= count
        invariant old(buffer.buf) <= buffer.buf && buffer.Total() == old(buffer.Total())
        invariant |buffer.sock.script| <= old(|buffer.sock.script|)
        invariant FindLine(Lenient, buffer.buf, start) == Found(next - 2) && buffer.buf[start..next - 2] == text
        invariant ParseItems(Lenient, buffer.buf, next, |items|) == Done(items, buffer.pos)
      {
        ghost var before, at := buffer.buf, buffer.pos;
        var item := ReadReply();
        LineExtends(Lenient, before, buffer.buf, start);
        assert buffer.buf[start..next - 2] == text;
        ItemsExtend(Lenient, before, buffer.buf, next, |items|);
        OneMoreItem(Lenient, buffer.buf, next, |items|);
        match item
        case Raised(error) =>
          StuckItem(buffer.buf, start, count, |items|);
          return Raised(error);
        case Refused(fault) =>
          ItemsPrefix(Lenient, buffer.buf, next, |items| + 1, count);
          ArrayVerdict(Lenient, buffer.buf, start, count);
          return Refused(fault);
        case Ok(value) =>
          items := items + [value];
      }
      ArrayVerdict(Lenient, buffer.buf, start, count);
      r := Ok(List(items));
    }

    /**
     read_response: on success exactly one reply is consumed; on any failure nothing is, and a failed
     read means that the bytes received so far hold no complete reply.
     */
    method ReadResponse() returns (r: Outcome<Value>)
      requires buffer.Valid()
      modifies buffer, buffer.sock
      ensures buffer.Valid() && |buffer.sock.script| <= old(|buffer.sock.script|)
      ensures r.Ok? ==>
        exists n :: 0 <= n <= old(|buffer.Unread()|) &&
          ParseAt(Lenient, old(buffer.Unread()), 0) == Done(r.value, n) && buffer.Unread() == old(buffer.Unread())[n..]
      ensures r.Ok? && buffer.pos == |buffer.buf| ==> buffer.buf == []
      ensures !r.Ok? ==> buffer.Unread() == old(buffer.Unread())
      ensures r.Refused? ==> ParseAt(Lenient, old(buffer.Unread()), 0) == Bad(r.fault)
      ensures r.Raised? ==> !ParseAt(Strict, buffer.buf[buffer.pos..], 0).Done?
      ensures r.Raised? ==> buffer.sock.script == [] || |buffer.sock.script| < old(|buffer.sock.script|)
    {
      hide ParseAt;
      var pos := buffer.pos;
      ghost var all := buffer.Total();
      buffer.RestOfTotal();
      r := ReadReply();
      ReadFrom(Lenient, buffer.buf, buffer.Total(), pos);
      if !r.Ok? {
        ReadFrom(Strict, buffer.buf, buffer.Total(), pos);
        buffer.Rewind(pos);
        buffer.RestOfTotal();
      } else {
        buffer.RestOfTotal();
        TailOfTail(all, pos, buffer.pos - pos);
        buffer.Purge();
      }
    }

    /** What was read of the bytes received so far is what the unread bytes begin with. */
    lemma {:induction false} ReadFrom(m: Mode, got: bytes, all: bytes, pos: nat)
      requires pos <= |got| && got <= all
      ensures var p, whole := ParseAt(m, got, pos), ParseAt(m, all[pos..], 0);
        && (p.Done? ==> p.next >= pos && whole == Done(p.value, p.next - pos))
        && (p.Bad? ==> whole == p)
        && (ParseAt(m, got[pos..], 0).Done? <==> p.Done?)
    {
      hide ParseAt;
      assert got[..pos] + got[pos..] == got && all[..pos] + all[pos..] == all;
      ParseShift(m, got[..pos], got[pos..], 0);
      ParseShift(m, all[..pos], all[pos..], 0);
      if !ParseAt(m, got, pos).More? {
        ParseExtends(m, got, all, pos);
      }
    }

    /** A caller that repeats a read until it completes gets the reply, and exactly what follows it stays unread. */
    method ReadWithRetries(ghost w: Wire, ghost rest: bytes) returns (v: Value)
      requires buffer.Valid() && Returnable(w) && buffer.Unread() == Encode(w) + rest
      modifies buffer, buffer.sock
      ensures buffer.Valid() && v == Meaning(w) && buffer.Unread() == rest
    {
      hide ParseAt;
      RoundTrip(Lenient, w, rest);
      RoundTrip(Strict, w, rest);
      assert (Encode(w) + rest)[|Encode(w)|..] == rest;
      var r := ReadResponse();
      while !r.Ok?
        invariant buffer.Valid() && !r.Refused?
        invariant r.Ok? ==> r.value == Meaning(w) && buffer.Unread() == rest
        invariant r.Raised? ==> buffer.Unread() == Encode(w) + rest
        invariant r.Raised? ==> !ParseAt(Strict, buffer.buf[buffer.pos..], 0).Done?
        decreases !r.Ok?, |buffer.sock.script|
      {
        StillMissing(buffer.buf[buffer.pos..], DataOf(buffer.sock.script), Encode(w) + rest);
        r := ReadResponse();
      }
      v := r.value;
    }
  }
}
