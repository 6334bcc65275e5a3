/** The asyncio RESP2 parser: a reply may be cancelled at any stream read and is replayed from kept bytes. */
module AsyncParser {
  import opened Helpers
  import opened Bytes
  import opened Resp

  datatype Outcome<+T> = Ok(value: T) | Cancelled | Refused(fault: Fault)

  /**
   asyncio.StreamReader. `data` is all that will arrive; then the stream ends (`eof`) or stays silent.
   `interrupts` says which of the next reads are cancelled; a read that waits for ever is cancelled too.
   A cancelled read takes nothing from the stream.
   */
  class StreamReader {
    var data: bytes
    const eof: bool
    var interrupts: seq<bool>

    constructor (data: bytes, eof: bool, interrupts: seq<bool>)
      ensures this.data == data && this.eof == eof && this.interrupts == interrupts
    {
      this.data, this.eof, this.interrupts := data, eof, interrupts;
    }

    method Interrupted() returns (yes: bool)
      modifies this`interrupts
      ensures yes ==> |interrupts| < |old(interrupts)|
      ensures |interrupts| <= |old(interrupts)|
      ensures yes == (old(interrupts) != [] && old(interrupts)[0])
    {
      yes := false;
      if interrupts != [] {
        yes, interrupts := interrupts[0], interrupts[1..];
      }
    }

    /** None is IncompleteReadError. */
    method ReadExactly(n: nat) returns (r: Outcome<Option<bytes>>)
      modifies this
      ensures !r.Refused? && |interrupts| <= |old(interrupts)|
      ensures r.Cancelled? ==> data == old(data) && (|interrupts| < |old(interrupts)| || |data| < n)
      ensures r.Ok? && r.value.Some? ==> |r.value.value| == n && old(data) == r.value.value + data
      ensures r.Ok? && r.value.None? ==> |old(data)| < n && eof
    {
      var interrupted := Interrupted();
      if interrupted {
        return Cancelled;
      }
      if |data| >= n {
        r, data := Ok(Some(data[..n])), data[n..];
      } else if eof {
        r, data := Ok(None), [];
      } else {
        r := Cancelled;
      }
    }

    /** Up to and including the first LF; at the end of the stream, whatever is left. */
    method ReadLine() returns (r: Outcome<bytes>)
      modifies this
      ensures !r.Refused? && |interrupts| <= |old(interrupts)|
      ensures r.Cancelled? ==> data == old(data) && (|interrupts| < |old(interrupts)| || FindLf(data, 0).None?)
      ensures r.Ok? ==> old(data) == r.value + data
      ensures r.Ok? ==>
          match FindLf(old(data), 0) case Some(k) => |r.value| == k + 1 case None => eof && r.value == old(data)
    {
      var interrupted := Interrupted();
      if interrupted {
        return Cancelled;
      }
      match FindLf(data, 0)
      case Some(k) => r, data := Ok(data[..k + 1]), data[k + 1..];
      case None =>
        if eof {
          r, data := Ok(data), [];
        } else {
          r := Cancelled;
        }
    }
  }

  /** The kept bytes hold whole tokens only: parsing them stops exactly at their end, or before it. */
  predicate Replayable(s: bytes, i: nat)
    requires i <= |s|
  {
    ParseAt(Strict, s, i).Done? || ParseAt(Strict, s, i) == More(|s|)
  }

  class AsyncResp2Parser {
    const stream: StreamReader
    var connected: bool
    var buffer: bytes
    var chunks: seq<bytes>
    var pos: nat

    constructor (stream: StreamReader)
      ensures this.stream == stream && connected && buffer == [] && chunks == [] && Resumable()
    {
      this.stream := stream;
      connected, buffer, chunks, pos := true, [], [], 0;
    }

    /** The bytes taken from the stream since the last finished reply. */
    function Taken(): bytes
      reads this
    {
      buffer + Join(chunks)
    }

    function All(): bytes
      reads this, stream
    {
      Taken() + stream.data
    }

    /** Between calls: every byte taken so far belongs to the reply in progress, and ends a token. */
    predicate Resumable()
      reads this
    {
      ParseAt(Strict, Taken(), 0) == More(|Taken()|)
    }

    /** The reader is either past everything it has taken, or replaying tokens it has seen before. */
    predicate AtToken()
      reads this
    {
      && pos <= |Taken()|
      && (pos < |Taken()| ==> chunks == [] && Replayable(buffer, pos))
    }

    method Clear()
      modifies this`buffer, this`chunks
      ensures buffer == [] && chunks == []
    {
      buffer := [];
      chunks := [];
    }

    /** Some bytes were read, none of them lost; before the kept bytes are used up, only they were read. */
    ghost predicate Advanced(taken: bytes, data: bytes, before: nat)
      reads this, stream
    {
      && taken <= Taken()
      && All() == taken + data
      && before < pos <= |Taken()|
      && (pos < |Taken()| ==> chunks == [])
    }

    /** Records what a stream read returned, so that a later cancellation can replay it. */
    method Keep(piece: bytes)
      modifies this`chunks
      ensures chunks != [] && Taken() == old(Taken()) + piece
    {
      JoinAppend(chunks, piece);
      chunks := chunks + [piece];
      assert buffer + (Join(old(chunks)) + piece) == (buffer + Join(old(chunks))) + piece;
    }

    method Read(length: nat) returns (r: Outcome<bytes>)
      requires pos <= |Taken()| && (pos < |Taken()| ==> chunks == [] && pos + length + 2 <= |buffer|)
      modifies this`pos, this`chunks, stream
      ensures |stream.interrupts| <= old(|stream.interrupts|)
      ensures r.Ok? ==> Advanced(old(Taken()), old(stream.data), old(pos))
      ensures r.Ok? ==> pos == old(pos) + length + 2 && r.value == Taken()[old(pos)..old(pos) + length]
      ensures r.Cancelled? ==> Taken() == old(Taken()) && stream.data == old(stream.data) && old(pos) == |Taken()|
      ensures r.Cancelled? ==> |stream.interrupts| < old(|stream.interrupts|) || old(|All()|) < old(pos) + length + 2
      ensures r.Refused? ==> old(|All()|) < old(pos) + length + 2 && stream.eof && r.fault == ConnectionFault
    {
      var want := length + 2;
      var end := pos + want;
      var result;
      if |buffer| >= end {
        result := buffer[pos..end - 2];
      } else {
        var tail := if pos <= |buffer| then buffer[pos..] else [];
        assert tail == [] && pos == |Taken()|;
        ghost var taken := Taken();
        var data := stream.ReadExactly(want - |tail|);
        match data
        case Cancelled => return Cancelled;
        case Ok(None) => return Refused(ConnectionFault);
        case Ok(Some(piece)) =>
          result := (tail + piece)[..want - 2];
          Keep(piece);
          Assoc(taken, piece, stream.data);
          Behind(taken, piece, length);
      }
      pos := pos + want;
      r := Ok(result);
    }

    method ReadLine() returns (r: Outcome<bytes>)
      requires pos <= |Taken()| && (pos < |Taken()| ==> chunks == [] && FindLine(Strict, buffer, pos).Found?)
      modifies this`pos, this`chunks, stream
      ensures |stream.interrupts| <= old(|stream.interrupts|)
      ensures r.Ok? ==> Advanced(old(Taken()), old(stream.data), old(pos))
      ensures r.Ok? ==> pos == old(pos) + |r.value| + 2 && FindLine(Strict, Taken(), old(pos)) == Found(pos - 2)
      ensures r.Ok? ==> r.value == Taken()[old(pos)..pos - 2]
      ensures r.Cancelled? ==> Taken() == old(Taken()) && stream.data == old(stream.data) && old(pos) == |Taken()|
      ensures r.Cancelled? ==>
          |stream.interrupts| < old(|stream.interrupts|) || FindLine(Strict, old(All()), old(pos)).Stalled?
      ensures r.Refused? ==> r.fault == ConnectionFault && !FindLine(Strict, old(All()), old(pos)).Found?
    {
      hide FindLine;
      if pos < |buffer| && chunks == [] {
        assert Taken() == buffer;
        StrictHasCrlf(buffer, pos);
      }
      var found := if pos <= |buffer| then FindCrlf(buffer, pos) else None;
      if found.Some? {
        ReplayedLine(buffer, Join(chunks), pos);
        r := Ok(buffer[pos..found.value]);
      } else {
        var tail := if pos <= |buffer| then buffer[pos..] else [];
        r := ReceiveLine(tail);
      }
      if r.Ok? {
        pos := pos + |r.value| + 2;
      }
    }

    /** The part of _readline that reads from the stream. */
    method ReceiveLine(tail: bytes) returns (r: Outcome<bytes>)
      requires pos == |Taken()| && tail == []
      modifies this`chunks, stream
      ensures |stream.interrupts| <= old(|stream.interrupts|)
      ensures r.Ok? ==> old(Taken()) <= Taken() && All() == old(All()) && |Taken()| == pos + |r.value| + 2
      ensures r.Ok? ==> FindLine(Strict, Taken(), pos) == Found(pos + |r.value|)
      ensures r.Ok? ==> r.value == Taken()[pos..pos + |r.value|]
      ensures r.Cancelled? ==> Taken() == old(Taken()) && stream.data == old(stream.data)
      ensures r.Cancelled? ==>
          |stream.interrupts| < old(|stream.interrupts|) || FindLine(Strict, old(All()), pos).Stalled?
      ensures r.Refused? ==> r.fault == ConnectionFault && !FindLine(Strict, old(All()), pos).Found?
    {
      hide FindLine, FindLf, Join;
      ghost var taken, coming := Taken(), stream.data;
      LineShift(Strict, taken, coming, 0);
      var data := stream.ReadLine();
      match data
      case Cancelled =>
        NoLineYet(coming);
        return Cancelled;
      case Ok(piece) =>
        FirstLine(coming, piece);
        if !(|piece| >= 2 && piece[|piece| - 2..] == CRLF) {
          return Refused(ConnectionFault);
        }
        var result := (tail + piece)[..|tail + piece| - 2];
        assert tail + piece == piece;
        Keep(piece);
        KeptLine(taken, piece, stream.data);
        r := Ok(result);
    }

    /** _read_response, for the reply that starts at the position. */
    method ReadReply() returns (r: Outcome<Value>)
      requires AtToken()
      modifies this`pos, this`chunks, this`buffer, stream
      ensures !r.Refused? ==> buffer == old(buffer)
      ensures |stream.interrupts| <= old(|stream.interrupts|)
      ensures r.Ok? ==> Advanced(old(Taken()), old(stream.data), old(pos))
      ensures r.Ok? ==> ParseAt(Strict, Taken(), old(pos)) == Done(r.value, pos)
      ensures r.Cancelled? ==> Suspended(old(Taken()), old(stream.data), old(pos))
      ensures r.Cancelled? ==> |stream.interrupts| < old(|stream.interrupts|) || ParseAt(Strict, All(), old(pos)).More?
      ensures r.Refused? ==> Verdict(old(All()), old(pos), r.fault)
      ensures r.Refused? && r.fault != ConnectionFault ==> buffer == old(buffer) && old(Taken()) <= Taken()
      ensures r.Refused? && SaysConnectionError(old(All()), old(pos)) ==> buffer == [] && chunks == []
      decreases |All()| - pos, 0
    {
      hide Classify, FindLine, ParseItems;
      ghost var start, all := pos, All();
      assert chunks == [] ==> Taken() == buffer;
      AtEnd(Taken());
      var raw := ReadLine();
      if !raw.Ok? {
        return if raw.Cancelled? then Cancelled else Refused(raw.fault);
      }
      ghost var line := Taken();
      LineExtends(Strict, line, all, start);
      SamePart(line, all, start, pos - 2);
      var head := Dispatch(Strict, raw.value);
      match head
      case Reject(fault) =>
        assert ParseAt(Strict, all, start) == Bad(fault);
        if fault == ConnectionFault {
          Clear();
        }
        return Refused(fault);
      case Whole(value) =>
        return Ok(value);
      case Payload(length) =>
        r := ReadBulk(length, start);
      case Items(count) =>
        r := ReadItems(count, start);
    }

    /** The payload of a bulk reply, whose header line started at `start`. */
    method ReadBulk(length: nat, ghost start: nat) returns (r: Outcome<Value>)
      requires start + 2 <= pos <= |Taken()| && (pos < |Taken()| ==> chunks == [] && Replayable(buffer, start))
      requires HasHead(Taken(), start, pos, Payload(length))
      modifies this`pos, this`chunks, stream
      ensures |stream.interrupts| <= old(|stream.interrupts|)
      ensures r.Ok? ==> Advanced(old(Taken()), old(stream.data), start)
      ensures r.Ok? ==> ParseAt(Strict, Taken(), start) == Done(r.value, pos)
      ensures r.Cancelled? ==> Suspended(old(Taken()), old(stream.data), start)
      ensures r.Cancelled? ==> |stream.interrupts| < old(|stream.interrupts|) || ParseAt(Strict, All(), start).More?
      ensures r.Refused? ==> Verdict(old(All()), start, r.fault) && r.fault == ConnectionFault
    {
      hide Classify, FindLine, ParseItems, ParseAt, HasHead;
      ghost var next, taken, all := pos, Taken(), All();
      BulkVerdict(taken, start, next, length);
      HeadGrows(taken, all, start, next, Payload(length));
      BulkVerdict(all, start, next, length);
      assert chunks == [] ==> taken == buffer;
      var data := Read(length);
      if !data.Ok? {
        return if data.Cancelled? then Cancelled else Refused(data.fault);
      }
      HeadGrows(taken, Taken(), start, next, Payload(length));
      BulkVerdict(Taken(), start, next, length);
      r := Ok(Str(data.value));
    }

    /** The list comprehension of an array reply, whose header line started at `start`. */
    method ReadItems(count: nat, ghost start: nat) returns (r: Outcome<Value>)
      requires start + 2 <= pos <= |Taken()| && (pos < |Taken()| ==> chunks == [] && Replayable(buffer, start))
      requires InArray(Taken(), start, pos, count)
      modifies this`pos, this`chunks, this`buffer, stream
      ensures !r.Refused? ==> buffer == old(buffer)
      ensures |stream.interrupts| <= old(|stream.interrupts|)
      ensures r.Ok? ==> Advanced(old(Taken()), old(stream.data), start)
      ensures r.Ok? ==> ParseAt(Strict, Taken(), start) == Done(r.value, pos)
      ensures r.Cancelled? ==> Suspended(old(Taken()), old(stream.data), start)
      ensures r.Cancelled? ==> |stream.interrupts| < old(|stream.interrupts|) || ParseAt(Strict, All(), start).More?
      ensures r.Refused? ==> Verdict(old(All()), start, r.fault)
      ensures r.Refused? && r.fault != ConnectionFault ==> buffer == old(buffer) && old(Taken()) <= Taken()
      decreases |All()| - pos, 1
    {
      hide Classify, FindLine, ParseItems, ParseAt, HasHead, Replayable;
      ghost var next, all, taken := pos, All(), Taken();
      var items: seq<Value> := [];
      NoItems(Strict, taken, next);
      while |items| < count
        invariant next <= pos <= |Taken()| && |items| <= count
        invariant old(Taken()) <= Taken() && All() == all && buffer == old(buffer)
        invariant pos < |Taken()| ==> chunks == [] && Taken() == taken
        invariant |stream.interrupts| <= old(|stream.interrupts|)
        invariant InArray(Taken(), start, next, count)
        invariant ParseItems(Strict, Taken(), next, |items|) == Done(items, pos)
      {
        ghost var before, at := Taken(), pos;
        if pos < |before| {
          assert before == buffer;
          ReplayableItem(buffer, start, next, count, |items|);
        }
        var item := ReadReply();
        assert before <= Taken() || item.Refused?;
        match item
        case Cancelled =>
          ItemStops(before, Taken(), start, next, count, |items|);
          ItemStops(before, all, start, next, count, |items|);
          return Cancelled;
        case Refused(fault) =>
          ItemStops(before, all, start, next, count, |items|);
          return Refused(fault);
        case Ok(value) =>
          ItemStops(before, Taken(), start, next, count, |items|);
          OneMoreItem(Strict, Taken(), next, |items|);
          items := items + [value];
      }
      ArrayFinished(Taken(), start, next, count);
      r := Ok(List(items));
    }

    /**
     read_response: a finished reply takes exactly its own bytes from the stream and forgets only those;
     a cancelled one keeps every byte it took, so that the next call can go on.
     */
    method ReadResponse() returns (r: Outcome<Value>)
      requires Resumable()
      modifies this`pos, this`chunks, this`buffer, stream
      ensures !connected ==> r == Refused(ConnectionFault)
      ensures |stream.interrupts| <= old(|stream.interrupts|)
      ensures r.Ok? ==>
        && |stream.data| <= old(|All()|)
        && ParseAt(Strict, old(All()), 0) == Done(r.value, old(|All()|) - |stream.data|)
        && stream.data == old(All())[old(|All()|) - |stream.data|..]
        && Taken() == [] && Resumable()
      ensures r.Cancelled? ==> Resumable() && All() == old(All())
      ensures r.Cancelled? ==> |stream.interrupts| < old(|stream.interrupts|) || ParseAt(Strict, All(), 0).More?
      ensures connected && r.Refused? ==> Verdict(old(All()), 0, r.fault)
    {
      hide ParseAt;
      if !connected {
        return Refused(ConnectionFault);
      }
      ghost var taken, all := Taken(), All();
      if chunks != [] {
        buffer := buffer + Join(chunks);
        chunks := [];
      }
      assert Taken() == taken == buffer;
      pos := 0;
      r := ReadReply();
      if r.Ok? {
        assert pos < |Taken()| ==> Taken() == taken;
        ParseExtends(Strict, Taken(), all, 0);
        assert all == Taken() + stream.data;
        Clear();
        AtEnd([]);
        assert Taken() == [];
      }
    }

    /** However often it is cancelled, a repeated read ends with the reply, and exactly what follows it is left. */
    method ReadThroughCancellations(ghost w: Wire, ghost rest: bytes) returns (v: Value)
      requires connected && Resumable() && Returnable(w) && All() == Encode(w) + rest
      modifies this`pos, this`chunks, this`buffer, stream
      ensures v == Meaning(w) && All() == stream.data == rest && Resumable()
    {
      hide ParseAt, Resumable;
      RoundTrip(Strict, w, rest);
      assert (Encode(w) + rest)[|Encode(w)|..] == rest;
      var r := ReadResponse();
      while !r.Ok?
        invariant !r.Refused?
        invariant r.Cancelled? ==> Resumable() && All() == Encode(w) + rest
        invariant r.Ok? ==> r.value == Meaning(w) && stream.data == rest && Taken() == [] && Resumable()
        decreases !r.Ok?, |stream.interrupts|
      {
        r := ReadResponse();
      }
      v := r.value;
    }

    /** Nothing was lost by a cancelled read: the kept bytes end a token of the unfinished reply. */
    ghost predicate Suspended(taken: bytes, data: bytes, start: nat)
      reads this, stream
    {
      && taken <= Taken() && All() == taken + data && start <= |Taken()|
      && ParseAt(Strict, Taken(), start) == More(|Taken()|)
    }
  }

  /** The line at the position is an error line that means a connection error. */
  predicate SaysConnectionError(all: bytes, start: nat) {
    start <= |all| && FindLine(Strict, all, start).Found? &&
      Classify(Strict, all[start..FindLine(Strict, all, start).stop]) == Reject(ConnectionFault)
  }

  /** A reply is refused for what it says, or because the stream ended inside it. */
  predicate Verdict(all: bytes, start: nat, fault: Fault) {
    start <= |all|
        && (ParseAt(Strict, all, start) == Bad(fault)
        || (ParseAt(Strict, all, start).More? && fault == ConnectionFault))
  }

  lemma {:induction false} Behind(taken: bytes, piece: bytes, length: nat)
    requires length <= |piece|
    ensures (taken + piece)[|taken|..|taken| + length] == piece[..length]
  {
  }

  /** A line that was received behind what was taken already. */
  lemma {:induction false} KeptLine(taken: bytes, piece: bytes, rest: bytes)
    requires |piece| >= 2 && FindLine(Strict, piece, 0) == Found(|piece| - 2)
    ensures FindLine(Strict, taken + piece, |taken|) == Found(|taken| + |piece| - 2)
    ensures (taken + piece)[|taken|..|taken| + |piece| - 2] == piece[..|piece| - 2]
    ensures taken + (piece + rest) == (taken + piece) + rest
  {
    hide FindLine;
    LineShift(Strict, taken, piece, 0);
    AppendedPart(taken, piece, |piece| - 2);
    Assoc(taken, piece, rest);
  }

  lemma {:induction false} AppendedPart(s: bytes, piece: bytes, n: nat)
    requires n <= |piece|
    ensures (s + piece)[|s|..|s| + n] == piece[..n]
  {
  }

  lemma {:induction false} SamePart(s: bytes, t: bytes, start: nat, end: nat)
    requires s <= t && start <= end <= |s|
    ensures s[start..end] == t[start..end]
  {
  }

  lemma {:induction false} Assoc(a: bytes, b: bytes, c: bytes)
    ensures (a + b) + c == a + (b + c)
  {
  }

  /** Behind the last byte every reply is still to come. */
  lemma {:induction false} AtEnd(s: bytes)
    ensures ParseAt(Strict, s, |s|) == More(|s|)
  {
  }

  lemma {:induction false} StrictHasCrlf(s: bytes, i: nat)
    requires i <= |s|
    ensures FindLine(Strict, s, i).Found? ==> FindCrlf(s, i).Some?
  {
  }

  lemma {:induction false} ReplayedLine(buffer: bytes, more: bytes, pos: nat)
    requires pos <= |buffer| && FindCrlf(buffer, pos).Some?
    requires more == [] && FindLine(Strict, buffer, pos).Found?
    ensures FindLine(Strict, buffer + more, pos) == Found(FindCrlf(buffer, pos).value)
  {
    assert buffer + [] == buffer;
    var line := FindLine(Strict, buffer, pos);
    assert buffer[line.stop] == CR && buffer[line.stop + 1] == LF;
  }

  lemma {:induction false} NoLineYet(data: bytes)
    ensures FindLine(Strict, data, 0).Stalled? <==> FindLf(data, 0).None?
  {
  }

  lemma {:induction false} FirstLine(data: bytes, piece: bytes)
    requires piece <= data
    requires match FindLf(data, 0) case Some(k) => |piece| == k + 1 case None => piece == data
    ensures |piece| >= 2 && piece[|piece| - 2..] == CRLF ==> FindLine(Strict, piece, 0) == Found(|piece| - 2)
    ensures !(|piece| >= 2 && piece[|piece| - 2..] == CRLF) ==>
      FindLine(Strict, data, 0).Broken? || (FindLine(Strict, data, 0).Stalled? && piece == data)
  {
    match FindLf(data, 0)
    case Some(k) =>
      assert FindLf(piece, 0) == Some(k);
      assert k > 0 ==> piece[|piece| - 2..] == [piece[k - 1], piece[k]];
    case None =>
      assert FindLf(piece, 0) == None;
      assert |piece| >= 2 ==> piece[|piece| - 2..][1] != LF;
  }

  /** A header line that announces `head` was read at `start` and ended before `next`. */
  ghost predicate HasHead(s: bytes, start: nat, next: nat, head: Head) {
    && start + 2 <= next <= |s|
    && FindLine(Strict, s, start) == Found(next - 2)
    && Classify(Strict, s[start..next - 2]) == head
  }

  ghost predicate InArray(s: bytes, start: nat, next: nat, count: nat) {
    HasHead(s, start, next, Items(count))
  }

  lemma {:induction false} HeadGrows(s: bytes, t: bytes, start: nat, next: nat, head: Head)
    requires s <= t && HasHead(s, start, next, head)
    ensures HasHead(t, start, next, head)
  {
    hide FindLine, Classify;
    LineExtends(Strict, s, t, start);
    assert s[start..next - 2] == t[start..next - 2];
  }

  lemma {:induction false} BulkVerdict(s: bytes, start: nat, next: nat, length: nat)
    requires HasHead(s, start, next, Payload(length))
    ensures next <= |s|
    ensures ParseAt(Strict, s, start) ==
      if next + length + 2 <= |s| then Done(Str(s[next..next + length]), next + length + 2) else More(next)
  {
  }

  lemma {:induction false} ArrayGrows(s: bytes, t: bytes, start: nat, next: nat, count: nat, k: nat)
    requires s <= t && InArray(s, start, next, count) && ParseItems(Strict, s, next, k).Done?
    ensures InArray(t, start, next, count) && ParseItems(Strict, t, next, k) == ParseItems(Strict, s, next, k)
  {
    hide FindLine, Classify, ParseItems;
    HeadGrows(s, t, start, next, Items(count));
    ItemsExtend(Strict, s, t, next, k);
  }

  lemma {:induction false} ItemVerdict(s: bytes, start: nat, next: nat, count: nat, k: nat)
    requires InArray(s, start, next, count) && k < count && ParseItems(Strict, s, next, k).Done?
    requires !ParseAt(Strict, s, ParseItems(Strict, s, next, k).next).Done?
    ensures ParseAt(Strict, s, start) == ParseAt(Strict, s, ParseItems(Strict, s, next, k).next)
  {
    hide FindLine, Classify, ParseItems, ParseAt;
    OneMoreItem(Strict, s, next, k);
    ItemsPrefix(Strict, s, next, k + 1, count);
    ArrayVerdict(Strict, s, start, count);
  }

  lemma {:induction false} ArrayFinished(s: bytes, start: nat, next: nat, count: nat)
    requires InArray(s, start, next, count)
    ensures var p := ParseItems(Strict, s, next, count);
      p.Done? ==> ParseAt(Strict, s, start) == Done(List(p.value), p.next)
  {
    hide Classify, FindLine, ParseItems, ParseAt;
    ArrayVerdict(Strict, s, start, count);
  }

  /** When more has come, the items read so far are the same, and an item that stops the parse stops the array's. */
  lemma {:induction false} ItemStops(s: bytes, t: bytes, start: nat, next: nat, count: nat, k: nat)
    requires s <= t && InArray(s, start, next, count) && k < count && ParseItems(Strict, s, next, k).Done?
    ensures InArray(t, start, next, count) && ParseItems(Strict, t, next, k) == ParseItems(Strict, s, next, k)
    ensures var at := ParseItems(Strict, s, next, k).next;
      !ParseAt(Strict, t, at).Done? ==> ParseAt(Strict, t, start) == ParseAt(Strict, t, at)
  {
    hide FindLine, Classify, ParseItems, ParseAt, HasHead;
    ArrayGrows(s, t, start, next, count, k);
    if !ParseAt(Strict, t, ParseItems(Strict, s, next, k).next).Done? {
      ItemVerdict(t, start, next, count, k);
    }
  }

  /** While an array can be replayed, so can the item it has come to. */
  lemma {:induction false} ReplayableItem(s: bytes, start: nat, next: nat, count: nat, k: nat)
    requires InArray(s, start, next, count) && k < count && ParseItems(Strict, s, next, k).Done? && Replayable(s, start)
    ensures Replayable(s, ParseItems(Strict, s, next, k).next)
  {
    hide FindLine, Classify, ParseItems, ParseAt;
    if !ParseAt(Strict, s, ParseItems(Strict, s, next, k).next).Done? {
      ItemVerdict(s, start, next, count, k);
    }
  }
}
