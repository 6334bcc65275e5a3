/** Printing commands: the serializer that cuts large values out, and the batching of many commands into blocks. */
module CommandPacker {
  import opened Bytes
  import opened Resp

  /** A command argument after encoding: a str that was encoded, a bytes object, or a memoryview. */
  datatype Arg = Text(data: bytes) | Raw(data: bytes) | View(data: bytes)

  type Command = args: seq<Arg> | args != [] witness [Raw([])]

  /** One item of a list handed to sendall. */
  datatype Chunk = Chunk(data: bytes, view: bool)

  const SPACE: byte := 32

  predicate IsSpace(b: byte) {
    9 <= b <= 13 || b == SPACE
  }

  function Leading(s: bytes): (word: bytes)
    ensures word <= s && (forall b :: b in word ==> !IsSpace(b))
    ensures s != [] && !IsSpace(s[0]) ==> word != []
    ensures |word| < |s| ==> IsSpace(s[|word|])
  {
    if s == [] || IsSpace(s[0]) then [] else [s[0]] + Leading(s[1..])
  }

  /** bytes.split() */
  function Words(s: bytes): (words: seq<bytes>)
    decreases |s|
  {
    if s == [] then []
    else if IsSpace(s[0]) then Words(s[1..])
    else [Leading(s)] + Words(s[|Leading(s)|..])
  }

  predicate Blank(s: bytes) {
    forall b :: b in s ==> IsSpace(b)
  }

  /** The first run of bytes without white space, from `i` to `j`, cannot be made longer. */
  predicate FirstRun(s: bytes, i: nat, j: nat) {
    && i < j <= |s| && Blank(s[..i]) && (forall k :: i <= k < j ==> !IsSpace(s[k]))
    && (j == |s| || IsSpace(s[j]))
  }

  /** These are the maximal runs of bytes without white space, all of them and in order. */
  ghost predicate AreRuns(s: bytes, runs: seq<bytes>)
    decreases |runs|
  {
    if runs == [] then Blank(s)
    else exists i: nat, j: nat :: FirstRun(s, i, j) && runs[0] == s[i..j] && AreRuns(s[j..], runs[1..])
  }

  /** Splitting gives exactly the maximal runs. */
  lemma {:induction false} WordsAreTheRuns(s: bytes, runs: seq<bytes>)
    ensures AreRuns(s, runs) <==> runs == Words(s)
    decreases |s|, |runs|
  {
    if s != [] && IsSpace(s[0]) {
      WordsAreTheRuns(s[1..], runs);
      RunsBehindSpace(s, runs);
    } else if s != [] {
      if runs != [] {
        RunsFromLeading(s, runs);
        WordsAreTheRuns(s[|Leading(s)|..], runs[1..]);
        assert runs == [runs[0]] + runs[1..];
      } else {
        NotBlank(s);
      }
    }
  }

  lemma {:induction false} NotBlank(s: bytes)
    requires s != [] && !IsSpace(s[0])
    ensures !Blank(s)
  {
    assert s[0] in s;
  }

  lemma {:induction false} RunsFromLeading(s: bytes, runs: seq<bytes>)
    requires s != [] && !IsSpace(s[0]) && runs != []
    ensures AreRuns(s, runs) <==> runs[0] == Leading(s) && AreRuns(s[|Leading(s)|..], runs[1..])
  {
    var n := |Leading(s)|;
    FirstIsLeading(s);
    assert s[0..n] == s[..n];
    if runs[0] == Leading(s) && AreRuns(s[n..], runs[1..]) {
      assert FirstRun(s, 0, n);
    }
  }

  lemma {:induction false} RunsBehindSpace(s: bytes, runs: seq<bytes>)
    requires s != [] && IsSpace(s[0])
    ensures AreRuns(s, runs) <==> AreRuns(s[1..], runs)
  {
    hide AreRuns;
    if AreRuns(s, runs) {
      RunsWithoutSpace(s, runs);
    }
    if AreRuns(s[1..], runs) {
      RunsWithSpace(s, runs);
    }
  }

  lemma {:induction false} RunsWithoutSpace(s: bytes, runs: seq<bytes>)
    requires s != [] && IsSpace(s[0]) && AreRuns(s, runs)
    ensures AreRuns(s[1..], runs)
  {
    if runs != [] {
      var i: nat, j: nat :| FirstRun(s, i, j) && runs[0] == s[i..j] && AreRuns(s[j..], runs[1..]);
      hide FirstRun, AreRuns;
      RunStartsLater(s, i, j);
      RunShifted(s, i - 1, j - 1);
      RunsFrom(s[1..], runs, i - 1, j - 1);
    }
  }

  lemma {:induction false} RunsWithSpace(s: bytes, runs: seq<bytes>)
    requires s != [] && IsSpace(s[0]) && AreRuns(s[1..], runs)
    ensures AreRuns(s, runs)
  {
    if runs == [] {
      assert s == [s[0]] + s[1..];
    } else {
      var i: nat, j: nat :| FirstRun(s[1..], i, j) && runs[0] == s[1..][i..j] && AreRuns(s[1..][j..], runs[1..]);
      RunShifted(s, i, j);
      RunsFrom(s, runs, i + 1, j + 1);
    }
  }

  lemma {:induction false} RunsFrom(s: bytes, runs: seq<bytes>, i: nat, j: nat)
    requires FirstRun(s, i, j) && runs != [] && runs[0] == s[i..j] && AreRuns(s[j..], runs[1..])
    ensures AreRuns(s, runs)
  {
  }

  lemma {:induction false} RunStartsLater(s: bytes, i: nat, j: nat)
    requires s != [] && IsSpace(s[0]) && FirstRun(s, i, j)
    ensures 0 < i < j <= |s|
  {
  }

  lemma {:induction false} RunShifted(s: bytes, i: nat, j: nat)
    requires s != [] && IsSpace(s[0]) && i < j < |s|
    ensures FirstRun(s[1..], i, j) <==> FirstRun(s, i + 1, j + 1)
    ensures s[1..][i..j] == s[i + 1..j + 1] && s[1..][j..] == s[j + 1..]
  {
    assert s[..i + 1] == [s[0]] + s[1..][..i];
    assert forall k :: 0 <= k < |s| - 1 ==> s[1..][k] == s[k + 1];
  }

  /** A string that begins without white space has its leading word as its first run. */
  lemma {:induction false} FirstIsLeading(s: bytes)
    requires s != [] && !IsSpace(s[0])
    ensures forall i: nat, j: nat :: FirstRun(s, i, j) <==> i == 0 && j == |Leading(s)|
    ensures s[..|Leading(s)|] == Leading(s)
  {
    var n := |Leading(s)|;
    assert forall k :: 0 <= k < n ==> s[k] == Leading(s)[k];
    forall i: nat, j: nat | FirstRun(s, i, j) ensures i == 0 && j == n {
      if i > 0 {
        BlankBegins(s, i);
      }
    }
  }

  lemma {:induction false} BlankBegins(s: bytes, i: nat)
    requires 0 < i <= |s| && Blank(s[..i])
    ensures IsSpace(s[0])
  {
    assert s[..i][0] in s[..i];
  }

  function WithoutSpaces(s: bytes): bytes {
    if s == [] then [] else (if IsSpace(s[0]) then [] else [s[0]]) + WithoutSpaces(s[1..])
  }

  /** Splitting only drops white space: every word is non-empty and free of it, and together they are the rest. */
  lemma {:induction false} WordsOnlyDropSpaces(s: bytes)
    ensures Join(Words(s)) == WithoutSpaces(s)
    ensures forall w :: w in Words(s) ==> w != [] && forall b :: b in w ==> !IsSpace(b)
    decreases |s|
  {
    if s != [] {
      if IsSpace(s[0]) {
        WordsOnlyDropSpaces(s[1..]);
      } else {
        var word := Leading(s);
        var rest := s[|word|..];
        WordsOnlyDropSpaces(rest);
        JoinConcat([word], Words(rest));
        assert Join([word]) == word by { assert [word][..0] == []; }
        assert word + rest == s;
        NoSpacesInWord(word, rest);
      }
    }
  }

  lemma {:induction false} NoSpacesInWord(word: bytes, rest: bytes)
    requires forall b :: b in word ==> !IsSpace(b)
    ensures WithoutSpaces(word + rest) == word + WithoutSpaces(rest)
  {
    if word == [] {
      assert word + rest == rest;
    } else {
      assert (word + rest)[0] in word;
      assert (word + rest)[1..] == word[1..] + rest;
      NoSpacesInWord(word[1..], rest);
    }
  }

  function Raws(words: seq<bytes>): seq<Arg> {
    seq(|words|, i requires 0 <= i < |words| => Raw(words[i]))
  }

  /** The arguments that go over the wire: a command name of several words is several arguments. */
  function Split(command: Command): seq<Arg> {
    match command[0]
    case Text(data) => Raws(Words(data)) + command[1..]
    case Raw(data) => if SPACE in data then Raws(Words(data)) + command[1..] else command
    case View(_) => command
  }

  function Strings(texts: seq<bytes>): seq<Value> {
    seq(|texts|, i requires 0 <= i < |texts| => Str(texts[i]))
  }

  function DataOf(args: seq<Arg>): seq<bytes> {
    seq(|args|, i requires 0 <= i < |args| => args[i].data)
  }

  /** A str is always split, a bytes object only if it has a space in it, and a memoryview never. */
  predicate HasWords(name: Arg) {
    name.Text? || (name.Raw? && SPACE in name.data)
  }

  /** What the command's name contributes: its maximal runs without white space, or itself. */
  ghost predicate Names(name: Arg, words: seq<bytes>) {
    if HasWords(name) then AreRuns(name.data, words) else words == [name.data]
  }

  /** A server that reads this list has read the command: the name's words, then the other arguments in order. */
  ghost predicate Spells(command: Command, list: Value) {
    exists words :: Names(command[0], words) && list == List(Strings(words + DataOf(command[1..])))
  }

  lemma {:induction false} ArgumentsSpell(command: Command)
    ensures Spells(command, Arguments(command))
  {
    hide AreRuns, Words;
    var name, words := command[0], if HasWords(command[0]) then Words(command[0].data) else [command[0].data];
    if HasWords(name) {
      WordsAreTheRuns(name.data, words);
    }
    assert Names(name, words);
    var args := Split(command);
    assert DataOf(args) == words + DataOf(command[1..]);
    assert Arguments(command).items == Strings(DataOf(args));
  }

  /** A name without white space is sent as it is, and so is every argument. */
  lemma {:induction false} PlainCommand(command: Command, list: Value)
    requires command[0].data != [] && forall b :: b in command[0].data ==> !IsSpace(b)
    requires Spells(command, list)
    ensures list == List(Strings(DataOf(command)))
  {
    hide AreRuns;
    var name := command[0];
    var words :| Names(name, words) && list == List(Strings(words + DataOf(command[1..])));
    if HasWords(name) {
      OneRun(name.data);
      WordsAreTheRuns(name.data, words);
      WordsAreTheRuns(name.data, [name.data]);
    }
    assert words + DataOf(command[1..]) == DataOf(command);
  }

  lemma {:induction false} OneRun(s: bytes)
    requires s != [] && forall b :: b in s ==> !IsSpace(b)
    ensures AreRuns(s, [s])
  {
    assert s[0..|s|] == s && s[|s|..] == [] && [s][1..] == [];
    assert FirstRun(s, 0, |s|);
  }

  function Bulks(args: seq<Arg>): seq<Wire> {
    seq(|args|, i requires 0 <= i < |args| => WireBulk(args[i].data))
  }

  function Request(command: Command): Wire {
    WireArray(Bulks(Split(command)))
  }

  function Requests(commands: seq<Command>): seq<Wire> {
    seq(|commands|, i requires 0 <= i < |commands| => Request(commands[i]))
  }

  /** What a server that reads the command sees: its split arguments, in order. */
  function Arguments(command: Command): Value {
    List(seq(|Split(command)|, i requires 0 <= i < |Split(command)| => Str(Split(command)[i].data)))
  }

  function ArgumentLists(commands: seq<Command>): seq<Value> {
    seq(|commands|, i requires 0 <= i < |commands| => Arguments(commands[i]))
  }

  function Datas(chunks: seq<Chunk>): seq<bytes> {
    seq(|chunks|, i requires 0 <= i < |chunks| => chunks[i].data)
  }

  function Sent(chunks: seq<Chunk>): bytes {
    Join(Datas(chunks))
  }

  lemma {:induction false} SentAppend(chunks: seq<Chunk>, chunk: Chunk)
    ensures Sent(chunks + [chunk]) == Sent(chunks) + chunk.data
  {
    assert Datas(chunks + [chunk]) == Datas(chunks) + [chunk.data];
    JoinAppend(Datas(chunks), chunk.data);
  }

  lemma {:induction false} MeaningOfBulks(args: seq<Arg>)
    ensures Meanings(Bulks(args)) == seq(|args|, i requires 0 <= i < |args| => Str(args[i].data))
  {
    if args != [] {
      var init := args[..|args| - 1];
      MeaningOfBulks(init);
      assert Bulks(args)[..|args| - 1] == Bulks(init);
    }
  }

  lemma {:induction false} MeaningOfRequests(commands: seq<Command>)
    ensures Meanings(Requests(commands)) == ArgumentLists(commands)
  {
    hide Split;
    if commands != [] {
      var init, last := commands[..|commands| - 1], commands[|commands| - 1];
      MeaningOfRequests(init);
      assert Requests(commands)[..|commands| - 1] == Requests(init);
      MeaningOfBulks(Split(last));
      assert Meaning(Request(last)) == Arguments(last);
      assert ArgumentLists(commands) == ArgumentLists(init) + [Arguments(last)];
    }
  }

  ghost predicate SpellsAll(commands: seq<Command>, lists: seq<Value>) {
    |lists| == |commands| && forall c :: 0 <= c < |commands| ==> Spells(commands[c], lists[c])
  }

  /** A server that parses the printed commands finds every argument list, in order, and nothing else. */
  lemma {:induction false} PrintThenParse(m: Mode, commands: seq<Command>)
    ensures var p := ParseItems(m, EncodeAll(Requests(commands)), 0, |commands|);
      p.Done? && p.next == |EncodeAll(Requests(commands))| && SpellsAll(commands, p.value)
  {
    hide ParseItems, EncodeAll, Spells, Arguments, Split;
    forall c | 0 <= c < |commands| ensures Spells(commands[c], ArgumentLists(commands)[c]) {
      ArgumentsSpell(commands[c]);
    }
    var items := Requests(commands);
    assert EncodeAll(items) + [] == EncodeAll(items);
    ItemsRoundTrip(m, items, [], WireArray(items));
    MeaningOfRequests(commands);
  }

  class PythonRespSerializer {
    const bufferCutoff: nat

    constructor (bufferCutoff: nat)
      ensures this.bufferCutoff == bufferCutoff
    {
      this.bufferCutoff := bufferCutoff;
    }

    /** Too large to be copied into a buffer with other arguments, or never to be copied. */
    predicate StandsAlone(arg: Arg) {
      |arg.data| > bufferCutoff || arg.View?
    }

    method Pack(command: Command) returns (output: seq<Chunk>)
      ensures forall k :: 1 <= k < |command| && StandsAlone(command[k]) ==>
        Chunk(command[k].data, command[k].View?) in output
      ensures Sent(output) == Encode(Request(command))
      ensures forall m ::
        var p := ParseAt(m, Sent(output), 0);
        p.Done? && p.next == |Sent(output)| && Spells(command, p.value)
    {
      hide Encode, EncodeAll, Decimal, Join, Bulks, Sent, Split;
      var args := Split(command);
      ArrayText(args);
      var buff := [42] + Decimal(|args|) + CRLF;
      output := [];
      NoBulks(args);
      for n := 0 to |args|
        invariant Sent(output) + buff == Header(42, Decimal(|args|)) + EncodeAll(Bulks(args[..n]))
        invariant forall i :: 0 <= i < n && StandsAlone(args[i]) ==> Chunk(args[i].data, args[i].View?) in output
      {
        var arg := args[n];
        ghost var before := Sent(output) + buff;
        OneMoreBulk(args, n);
        var header := [36] + Decimal(|arg.data|) + CRLF;
        if |buff| > bufferCutoff || |arg.data| > bufferCutoff || arg.View? {
          buff := buff + header;
          SentAppend(output, Chunk(buff, false));
          output := output + [Chunk(buff, false)];
          SentAppend(output, Chunk(arg.data, arg.View?));
          output := output + [Chunk(arg.data, arg.View?)];
          buff := CRLF;
        } else {
          buff := buff + header + arg.data + CRLF;
        }
        assert Sent(output) + buff == before + (header + arg.data + CRLF);
        assert Sent(output) + buff == Header(42, Decimal(|args|)) +
            (EncodeAll(Bulks(args[..n])) + (header + arg.data + CRLF));
      }
      SentAppend(output, Chunk(buff, false));
      output := output + [Chunk(buff, false)];
      assert args[..|args|] == args;
      forall m: Mode {
        OneRequest(m, command);
      }
      RestOfSplit(command);
    }
  }

  /** The arguments behind the name are the last ones. */
  lemma {:induction false} RestOfSplit(command: Command)
    ensures var args := Split(command);
      |args| >= |command| - 1 &&
      forall k :: 1 <= k < |command| ==> args[|args| - |command| + k] == command[k]
  {
  }

  lemma {:induction false} OneRequest(m: Mode, command: Command)
    ensures var s := Encode(Request(command));
      var p := ParseAt(m, s, 0); p.Done? && p.next == |s| && Spells(command, p.value)
  {
    hide ParseAt, Encode, Split, Spells;
    var s := Encode(Request(command));
    assert s + [] == s;
    RoundTrip(m, Request(command), []);
    MeaningOfBulks(Split(command));
    assert Meaning(Request(command)) == Arguments(command);
    ArgumentsSpell(command);
  }

  lemma {:induction false} NoBulks(args: seq<Arg>)
    ensures EncodeAll(Bulks(args[..0])) == [] && Sent([]) == []
  {
  }

  lemma {:induction false} ArrayText(args: seq<Arg>)
    ensures Encode(WireArray(Bulks(args))) == Header(42, Decimal(|args|)) + EncodeAll(Bulks(args))
  {
  }

  lemma {:induction false} OneMoreBulk(args: seq<Arg>, n: nat)
    requires n < |args|
    ensures EncodeAll(Bulks(args[..n + 1])) ==
            EncodeAll(Bulks(args[..n])) + ([36] + Decimal(|args[n].data|) + CRLF + args[n].data + CRLF)
  {
    assert Bulks(args[..n + 1])[..n] == Bulks(args[..n]);
  }

  lemma {:induction false} OneMoreRequest(commands: seq<Command>, n: nat)
    requires n < |commands|
    ensures EncodeAll(Requests(commands[..n + 1])) == EncodeAll(Requests(commands[..n])) + Encode(Request(commands[n]))
  {
    assert Requests(commands[..n + 1])[..n] == Requests(commands[..n]);
  }

  class Connection {
    const bufferCutoff: nat
    const packer: PythonRespSerializer

    constructor (bufferCutoff: nat)
      ensures this.bufferCutoff == bufferCutoff && packer.bufferCutoff == bufferCutoff
    {
      this.bufferCutoff := bufferCutoff;
      packer := new PythonRespSerializer(bufferCutoff);
    }

    /** A block is sent alone because it is oversized or a memoryview, or it is joined from smaller chunks. */
    predicate Alone(chunk: Chunk) {
      |chunk.data| > bufferCutoff || chunk.view
    }

    /** One chunk: what was collected goes out when it is long enough, and a chunk that stands alone follows it. */
    method AddChunk(chunk: Chunk, output: seq<Chunk>, pieces: seq<bytes>, bufferLength: nat, ghost chunks: seq<Chunk>)
      returns (output': seq<Chunk>, pieces': seq<bytes>, bufferLength': nat)
      requires Batched(chunks, output, pieces, bufferLength)
      ensures Batched(chunks + [chunk], output', pieces', bufferLength')
    {
      hide Batched;
      output', pieces', bufferLength' := output, pieces, bufferLength;
      if bufferLength > bufferCutoff || |chunk.data| > bufferCutoff || chunk.view {
        if pieces == [] {
          NoPieces(chunks, output, bufferLength);
        } else {
          Flush(chunks, output, pieces, bufferLength);
          output' := output + [Chunk(Join(pieces), false)];
        }
        bufferLength' := 0;
        pieces' := [];
      }
      if |chunk.data| > bufferCutoff || chunk.view {
        AddAlone(chunks, output', chunk);
        output' := output' + [chunk];
      } else {
        AddPiece(chunks, output', pieces', bufferLength', chunk);
        pieces' := pieces' + [chunk.data];
        bufferLength' := bufferLength' + |chunk.data|;
      }
    }

    /** The chunks of one command, one after the other. */
    method AddChunks(
        packed: seq<Chunk>, output: seq<Chunk>, pieces: seq<bytes>, bufferLength: nat, ghost chunks: seq<Chunk>)
      returns (output': seq<Chunk>, pieces': seq<bytes>, bufferLength': nat, ghost chunks': seq<Chunk>)
      requires Batched(chunks, output, pieces, bufferLength)
      ensures Batched(chunks', output', pieces', bufferLength')
      ensures Sent(chunks') == Sent(chunks) + Sent(packed)
    {
      hide Batched, Alone;
      output', pieces', bufferLength', chunks' := output, pieces, bufferLength, chunks;
      assert Sent(packed[..0]) == [];
      for p := 0 to |packed|
        invariant Sent(chunks') == Sent(chunks) + Sent(packed[..p])
        invariant Batched(chunks', output', pieces', bufferLength')
      {
        var chunk := packed[p];
        assert packed[..p + 1] == packed[..p] + [chunk];
        SentAppend(packed[..p], chunk);
        SentAppend(chunks', chunk);
        output', pieces', bufferLength' := AddChunk(chunk, output', pieces', bufferLength', chunks');
        chunks' := chunks' + [chunk];
      }
      assert packed[..|packed|] == packed;
    }

    /**
     Batches the chunks of all commands. The blocks spell exactly the commands; a block that is not a
     packer chunk sent alone has at most twice the cutoff.
     */
    method PackCommands(commands: seq<Command>) returns (output: seq<Chunk>, ghost chunks: seq<Chunk>)
      ensures Sent(chunks) == Sent(output) == EncodeAll(Requests(commands))
      ensures forall block :: block in output ==>
        (block in chunks && Alone(block)) || (!block.view && |block.data| <= 2 * bufferCutoff)
      ensures forall chunk :: chunk in chunks && Alone(chunk) ==> chunk in output
      ensures forall m ::
        var p := ParseItems(m, Sent(output), 0, |commands|);
        p.Done? && p.next == |Sent(output)| && SpellsAll(commands, p.value)
    {
      hide Request, Requests, Encode, EncodeAll, ParseItems, ArgumentLists, Batched;
      output, chunks := [], [];
      var pieces: seq<bytes> := [];
      var bufferLength: nat := 0;
      Started(commands);
      for c := 0 to |commands|
        invariant Sent(chunks) == EncodeAll(Requests(commands[..c]))
        invariant Batched(chunks, output, pieces, bufferLength)
      {
        var packed := packer.Pack(commands[c]);
        OneMoreRequest(commands, c);
        output, pieces, bufferLength, chunks := AddChunks(packed, output, pieces, bufferLength, chunks);
      }
      if pieces == [] {
        NoPieces(chunks, output, bufferLength);
      } else {
        Flush(chunks, output, pieces, bufferLength);
        output := output + [Chunk(Join(pieces), false)];
      }
      Finished(chunks, output);
      assert commands[..|commands|] == commands;
      forall m: Mode {
        PrintThenParse(m, commands);
      }
    }

    /** The state of the batching loop: the pieces are what has been packed but not put into a block. */
    ghost predicate Batched(chunks: seq<Chunk>, output: seq<Chunk>, pieces: seq<bytes>, bufferLength: nat) {
      && Sent(output) + Join(pieces) == Sent(chunks)
      && |Join(pieces)| == bufferLength <= 2 * bufferCutoff
      && (forall b :: b in output ==> (b in chunks && Alone(b)) || (!b.view && |b.data| <= 2 * bufferCutoff))
      && (forall c :: c in chunks && Alone(c) ==> c in output)
    }

    lemma {:induction false} Started(commands: seq<Command>)
      ensures Batched([], [], [], 0) && Sent([]) == EncodeAll(Requests(commands[..0]))
    {
    }

    lemma {:induction false} NoPieces(chunks: seq<Chunk>, output: seq<Chunk>, bufferLength: nat)
      requires Batched(chunks, output, [], bufferLength)
      ensures bufferLength == 0
    {
    }

    lemma {:induction false} Flush(chunks: seq<Chunk>, output: seq<Chunk>, pieces: seq<bytes>, bufferLength: nat)
      requires Batched(chunks, output, pieces, bufferLength)
      ensures Batched(chunks, output + [Chunk(Join(pieces), false)], [], 0)
    {
      SentAppend(output, Chunk(Join(pieces), false));
    }

    lemma {:induction false} AddAlone(chunks: seq<Chunk>, output: seq<Chunk>, chunk: Chunk)
      requires Batched(chunks, output, [], 0) && Alone(chunk)
      ensures Batched(chunks + [chunk], output + [chunk], [], 0)
    {
      SentAppend(chunks, chunk);
      SentAppend(output, chunk);
    }

    lemma {:induction false} AddPiece(chunks: seq<Chunk>, output: seq<Chunk>, pieces: seq<bytes>, bufferLength: nat,
        chunk: Chunk)
      requires Batched(chunks, output, pieces, bufferLength) && !Alone(chunk) && bufferLength <= bufferCutoff
      ensures Batched(chunks + [chunk], output, pieces + [chunk.data], bufferLength + |chunk.data|)
    {
      SentAppend(chunks, chunk);
      JoinAppend(pieces, chunk.data);
      assert Sent(output) + (Join(pieces) + chunk.data) == (Sent(output) + Join(pieces)) + chunk.data;
    }

    lemma {:induction false} Finished(chunks: seq<Chunk>, output: seq<Chunk>)
      requires Batched(chunks, output, [], 0)
      ensures Sent(chunks) == Sent(output)
      ensures forall b :: b in output ==> (b in chunks && Alone(b)) || (!b.view && |b.data| <= 2 * bufferCutoff)
      ensures forall c :: c in chunks && Alone(c) ==> c in output
    {
    }
  }
}
