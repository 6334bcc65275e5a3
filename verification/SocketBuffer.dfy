/** The blocking client's read buffer over a socket that may deliver its bytes in any pieces, or time out. */
module SocketIO {
  import opened Helpers
  import opened Bytes
  import opened Resp

  /** One outcome of recv. `Data([])` is what recv returns once the server has shut the socket. */
  datatype Event = Data(data: bytes) | TimedOut | WouldBlock

  datatype IoError = Timeout | Closed

  datatype Outcome<+T> = Ok(value: T) | Raised(error: IoError) | Refused(fault: Fault)

  /** The bytes a run of recv calls will deliver. */
  function DataOf(script: seq<Event>): bytes {
    if script == [] then []
    else (if script[0].Data? then script[0].data else []) + DataOf(script[1..])
  }

  /** No recv of the script times out or finds the socket shut. */
  predicate Uninterrupted(script: seq<Event>) {
    forall i :: 0 <= i < |script| ==> script[i].Data? && script[i].data != []
  }

  lemma {:induction false} NextData(buf: bytes, script: seq<Event>)
    ensures script != [] && script[0].Data? ==> buf + DataOf(script) == buf + script[0].data + DataOf(script[1..])
    ensures script != [] && !script[0].Data? ==> DataOf(script) == DataOf(script[1..])
  {
  }

  lemma {:induction false} StillUninterrupted(script: seq<Event>)
    ensures script != [] && Uninterrupted(script) ==>
      Uninterrupted(script[1..]) && script[0].Data? && script[0].data != []
  {
  }

  lemma {:induction false} ButLastTwo(s: bytes, from: nat, to: nat)
    requires from + 2 <= to <= |s|
    ensures s[from..to][..to - from - 2] == s[from..to - 2]
  {
  }

  predicate EndsLine(data: bytes) {
    |data| >= 2 && data[|data| - 2..] == CRLF
  }

  /** Up to pos, the line from start has no end that the strict grammar accepts. */
  predicate StrictlyOpen(s: bytes, start: nat, pos: nat)
    requires start <= |s|
  {
    FindLine(Strict, s, start).Broken? || (FindLine(Strict, s, start).Stalled? && pos == |s|)
  }

  /** The state of readline after a piece: no CRLF before the end of s[start..pos]. */
  predicate Reading(s: bytes, start: nat, pos: nat)
    requires start <= pos <= |s|
  {
    && (forall k :: start <= k < pos - 2 ==> !(s[k] == CR && s[k + 1] == LF))
    && (EndsLine(s[start..pos]) || StrictlyOpen(s, start, pos))
  }

  /** What BytesIO.readline took: up to the first LF from `from`, or everything. */
  predicate Taken(s: bytes, from: nat, pos: nat)
    requires from <= pos <= |s|
  {
    && (pos == |s| || (pos > from && s[pos - 1] == LF))
    && (forall k :: from <= k < pos - 1 ==> s[k] != LF)
  }

  lemma {:induction false} FirstPiece(s: bytes, start: nat, pos: nat)
    requires start <= pos <= |s| && Taken(s, start, pos)
    ensures Reading(s, start, pos)
  {
  }

  lemma {:induction false} NoInnerCrlf(before: bytes, s: bytes, start: nat, from: nat, pos: nat)
    requires start <= from <= |before| && before <= s && from <= pos <= |s|
    requires forall k :: start <= k < from - 2 ==> !(before[k] == CR && before[k + 1] == LF)
    requires !EndsLine(before[start..from])
    requires Taken(s, from, pos)
    ensures forall k :: start <= k < pos - 2 ==> !(s[k] == CR && s[k + 1] == LF)
  {
  }

  lemma {:induction false} NextPiece(before: bytes, s: bytes, start: nat, from: nat, pos: nat)
    requires start <= from <= |before| && before <= s && from <= pos <= |s|
    requires Reading(before, start, from) && !EndsLine(before[start..from])
    requires Taken(s, from, pos)
    ensures Reading(s, start, pos)
  {
    NoInnerCrlf(before, s, start, from, pos);
    if FindLine(Strict, before, start).Broken? {
      LineExtends(Strict, before, s, start);
    } else {
      NoInnerLf(before, s, start, from, pos);
      hide Taken;
      FirstLf(s, start, pos);
    }
  }

  lemma {:induction false} NoInnerLf(before: bytes, s: bytes, start: nat, from: nat, pos: nat)
    requires start <= from == |before| && before <= s && from <= pos <= |s|
    requires FindLf(before, start) == None && Taken(s, from, pos)
    ensures forall k :: start <= k < pos - 1 ==> s[k] != LF
    ensures pos == |s| || (pos > from && s[pos - 1] == LF)
  {
    hide FindLine;
    assert forall k :: start <= k < from ==> s[k] == before[k];
  }

  /** A piece that reached its first LF ends the line, or shows that it has no strict end. */
  lemma {:induction false} FirstLf(s: bytes, start: nat, pos: nat)
    requires start <= pos <= |s| && (forall k :: start <= k < pos - 1 ==> s[k] != LF)
    requires pos == |s| || (pos > start && s[pos - 1] == LF)
    ensures EndsLine(s[start..pos]) || StrictlyOpen(s, start, pos)
  {
    if pos > start && s[pos - 1] == LF {
      assert FindLf(s, start) == Some(pos - 1);
      assert pos - 1 > start && s[pos - 2] == CR ==> s[start..pos][pos - start - 2..] == CRLF;
    } else {
      assert FindLf(s, start) == None;
    }
  }

  lemma {:induction false} StillOpen(s: bytes, start: nat, pos: nat)
    requires start <= pos <= |s| && Reading(s, start, pos) && !EndsLine(s[start..pos])
    ensures !FindLine(Strict, s, start).Found?
  {
  }

  lemma {:induction false} WholeLine(s: bytes, start: nat, pos: nat)
    requires start <= pos <= |s| && Reading(s, start, pos) && EndsLine(s[start..pos])
    ensures FindLine(Lenient, s, start) == Found(pos - 2)
  {
    var line := s[start..pos];
    assert s[pos - 2] == line[|line| - 2..][0] && s[pos - 1] == line[|line| - 2..][1];
    assert FindCrlf(s, start) == Some(pos - 2);
  }

  /** A socket whose future is fixed: recv plays the script, then times out for ever. */
  class Socket {
    var script: seq<Event>

    constructor (events: seq<Event>)
      ensures script == events
    {
      script := events;
    }

    method Recv() returns (e: Event)
      modifies this
      ensures old(script) == [] ==> e == TimedOut && script == []
      ensures old(script) != [] ==> e == old(script)[0] && script == old(script)[1..]
    {
      if script == [] {
        return TimedOut;
      }
      e, script := script[0], script[1..];
    }
  }

  /** `buf` is the contents of the BytesIO and `pos` its position. */
  class SocketBuffer {
    const sock: Socket
    var buf: bytes
    var pos: nat

    constructor (sock: Socket)
      ensures this.sock == sock && buf == [] && pos == 0
    {
      this.sock := sock;
      buf, pos := [], 0;
    }

    predicate Valid()
      reads this
    {
      pos <= |buf|
    }

    /** Everything the buffer holds or will ever hold. */
    function Total(): bytes
      reads this, sock
    {
      buf + DataOf(sock.script)
    }

    /** Everything the caller has not read yet: buffered, then still to be received. */
    function Unread(): bytes
      reads this, sock
      requires Valid()
    {
      buf[pos..] + DataOf(sock.script)
    }

    lemma {:induction false} RestOfTotal()
      requires Valid()
      ensures pos <= |Total()| && Unread() == Total()[pos..]
    {
      hide DataOf;
    }

    /** Appends received data behind the position until `length` bytes (at least one piece) have come. */
    method ReadFromSocket(length: nat) returns (error: Option<IoError>)
      requires Valid()
      modifies this, sock
      ensures pos == old(pos) && old(buf) <= buf && Total() == old(Total())
      ensures error.None? ==> |buf| >= old(|buf|) + length && |buf| > old(|buf|) && |sock.script| < old(|sock.script|)
      ensures error.Some? ==> |buf| < old(|buf|) + length || buf == old(buf)
      ensures |sock.script| <= old(|sock.script|)
      ensures error.Some? ==> sock.script == [] || |sock.script| < old(|sock.script|)
      ensures old(Uninterrupted(sock.script)) ==> Uninterrupted(sock.script) && (error.Some? ==> sock.script == [])
    {
      hide Uninterrupted, DataOf;
      var marker := 0;
      var current := pos;
      pos := |buf|;
      while true
        invariant pos == |buf| && old(buf) <= buf && Total() == old(Total())
        invariant marker == |buf| - old(|buf|)
        invariant marker == 0 ==> sock.script == old(sock.script)
        invariant marker > 0 ==> marker < length && |sock.script| < old(|sock.script|)
        invariant old(Uninterrupted(sock.script)) ==> Uninterrupted(sock.script)
        decreases |sock.script|
      {
        StillUninterrupted(sock.script);
        NextData(buf, sock.script);
        var e := sock.Recv();
        match e
        case TimedOut =>
          pos := current;
          return Some(Timeout);
        case WouldBlock =>
          pos := current;
          return Some(Closed);
        case Data(data) =>
          if data == [] {
            pos := current;
            return Some(Closed);
          }
          buf := buf + data;
          pos := |buf|;
          marker := marker + |data|;
          if length > marker {
            continue;
          }
          pos := current;
          return None;
      }
    }

    /** BytesIO.read: at most n bytes from the position. */
    method TakeUpTo(n: nat) returns (data: bytes)
      requires Valid()
      modifies this`pos
      ensures pos == (if old(pos) + n <= |buf| then old(pos) + n else |buf|)
      ensures data == buf[old(pos)..pos]
    {
      var stop := if pos + n <= |buf| then pos + n else |buf|;
      data := buf[pos..stop];
      pos := stop;
    }

    /** BytesIO.readline: up to and including the next LF, or whatever is left. */
    method TakeLine() returns (data: bytes)
      requires Valid()
      modifies this`pos
      ensures old(pos) <= pos <= |buf| && data == buf[old(pos)..pos]
      ensures Taken(buf, old(pos), pos)
    {
      var found := FindLf(buf, pos);
      var stop := match found { case None => |buf| case Some(k) => k + 1 };
      data := buf[pos..stop];
      pos := stop;
    }

    /** The payload of a bulk reply: `length` bytes, without the CRLF that must have arrived behind them. */
    method Read(length: nat) returns (r: Outcome<bytes>)
      requires Valid()
      modifies this, sock
      ensures Valid() && old(buf) <= buf && Total() == old(Total()) && !r.Refused?
      ensures r.Ok? ==> pos == old(pos) + length + 2 <= |buf| && r.value == buf[old(pos)..old(pos) + length]
      ensures r.Raised? ==> |buf| < old(pos) + length + 2
      ensures |sock.script| <= old(|sock.script|)
      ensures r.Raised? ==> sock.script == [] || |sock.script| < old(|sock.script|)
      ensures old(Uninterrupted(sock.script)) ==> Uninterrupted(sock.script) && (r.Raised? ==> sock.script == [])
    {
      var want := length + 2;
      var data := TakeUpTo(want);
      var missing := want - |data|;
      if missing > 0 {
        var error := ReadFromSocket(missing);
        if error.Some? {
          return Raised(error.value);
        }
        var rest := TakeUpTo(missing);
        data := data + rest;
      }
      assert data == buf[old(pos)..pos];
      ButLastTwo(buf, old(pos), pos);
      r := Ok(data[..|data| - 2]);
    }

    /**
     The next line, without its CRLF. A line that stays open leaves the strict grammar without a line too:
     only a bare LF makes this method wait although a CRLF has already arrived.
     */
    method ReadLine() returns (r: Outcome<bytes>)
      requires Valid()
      modifies this, sock
      ensures Valid() && old(buf) <= buf && Total() == old(Total()) && !r.Refused?
      ensures r.Ok? ==>
        && FindLine(Lenient, buf, old(pos)) == Found(old(pos) + |r.value|)
        && pos == old(pos) + |r.value| + 2
        && r.value == buf[old(pos)..old(pos) + |r.value|]
      ensures r.Raised? ==> !FindLine(Strict, buf, old(pos)).Found?
      ensures |sock.script| <= old(|sock.script|)
      ensures r.Raised? ==> sock.script == [] || |sock.script| < old(|sock.script|)
      ensures old(Uninterrupted(sock.script)) ==> Uninterrupted(sock.script) && (r.Raised? ==> sock.script == [])
    {
      hide FindLine, Reading, Taken, Uninterrupted;
      var start := pos;
      var data := TakeLine();
      FirstPiece(buf, start, pos);
      while !EndsLine(data)
        invariant start == old(pos) <= pos <= |buf| && data == buf[start..pos]
        invariant old(buf) <= buf && Total() == old(Total()) && |sock.script| <= old(|sock.script|)
        invariant Reading(buf, start, pos)
        invariant old(Uninterrupted(sock.script)) ==> Uninterrupted(sock.script)
        decreases |sock.script|
      {
        ghost var before, from := buf, pos;
        var error := ReadFromSocket(0);
        if error.Some? {
          StillOpen(buf, start, pos);
          return Raised(error.value);
        }
        assert data == before[start..from] == buf[start..from];
        var more := TakeLine();
        assert data + more == buf[start..pos];
        data := data + more;
        NextPiece(before, buf, start, from, pos);
      }
      ButLastTwo(buf, start, pos);
      r := Ok(data[..|data| - 2]);
      WholeLine(buf, start, pos);
    }

    method Rewind(position: nat)
      modifies this`pos
      ensures pos == position
    {
      pos := position;
    }

    /** Empties the buffer, but only when everything in it has been read. */
    method Purge()
      requires Valid()
      modifies this
      ensures Valid() && Unread() == old(Unread()) && (pos == |buf| ==> buf == [])
    {
      if |buf| - pos > 0 {
        return;
      }
      buf := [];
      pos := 0;
    }
  }
}
