/** WATCH: what the pipeline believes about its connection, against what the server keeps for it. */
module WatchedPipelines {
  import opened Helpers

  datatype Command = Watch | Unwatch | Discard | Multi | Exec | Other

  /** EXEC answers with as many results as commands were queued, or with nil. */
  datatype Answer = Fine | Results(count: nat) | Nil | Failed

  /**
   What the server keeps for one connection; `dirty` is that a watched key was changed since, and `queued` the
   number of commands queued since MULTI.
   */
  datatype Session = Session(watched: bool, dirty: bool, multi: bool, aborted: bool, queued: nat)

  const NEW_SESSION := Session(false, false, false, false, 0)

  /** For each command of a batch: whether it is refused, and whether a watched key is changed just before it. */
  type Marks = nat -> bool

  /** What happens to one exchange: it is answered, some commands being refused, or the connection is lost. */
  datatype Turn = Answered(refused: Marks, touched: Marks) | Lost(timedOut: bool)

  datatype Exchanged = Answers(answers: seq<Answer>) | Broken(timedOut: bool)

  datatype Outcome = Done | Queued | RedisError | ResponseError | WatchError | Unreachable(timedOut: bool) | ResetFailed

  /** One command at the server. A refusal inside MULTI aborts the transaction; EXEC ends it in any case. */
  function Serve(before: Session, c: Command, refused: bool, touched: bool): (Session, Answer) {
    var s := if touched && before.watched then before.(dirty := true) else before;
    if s.multi then
      if c == Exec then
        (NEW_SESSION, if s.aborted || refused then Failed else if s.dirty then Nil else Results(s.queued))
      else if refused || c == Watch || c == Multi then (s.(aborted := true), Failed)
      else if c == Discard then (NEW_SESSION, Fine)
      else (s.(queued := s.queued + 1), Fine)
    else if refused || c == Exec || c == Discard then (s, Failed)
    else if c == Watch then (s.(watched := true), Fine)
    else if c == Unwatch then (s.(watched := false, dirty := false), Fine)
    else if c == Multi then (s.(multi := true, aborted := false, queued := 0), Fine)
    else (s, Fine)
  }

  function ServeAll(s: Session, commands: seq<Command>, refused: Marks, touched: Marks): (r: (Session, seq<Answer>))
    ensures |r.1| == |commands|
  {
    if commands == [] then (s, [])
    else
      var n := |commands| - 1;
      var before := ServeAll(s, commands[..n], refused, touched);
      var last := Serve(before.0, commands[n], refused(n), touched(n));
      (last.0, before.1 + [last.1])
  }

  /** What a transaction sends. */
  function Transaction(stack: seq<Command>): seq<Command> {
    [Multi] + stack + [Exec]
  }

  // ---------------------------------------------------------------- what a batch leaves at the server

  predicate Closes(c: Command, refused: bool) {
    c == Exec || (c == Discard && !refused)
  }

  /** Some MULTI was accepted, and nothing has closed it. */
  predicate Open(commands: seq<Command>, refused: Marks) {
    exists i :: 0 <= i < |commands| && commands[i] == Multi && !refused(i) &&
      forall j :: i < j < |commands| ==> !Closes(commands[j], refused(j))
  }

  /** A WATCH that takes effect: accepted, and outside every transaction. */
  predicate Takes(commands: seq<Command>, refused: Marks, j: nat)
    requires j < |commands|
  {
    commands[j] == Watch && !refused(j) && !Open(commands[..j], refused)
  }

  /** From position `from` on, no UNWATCH and no MULTI is accepted. */
  predicate KeptFrom(commands: seq<Command>, refused: Marks, from: nat) {
    forall i :: from <= i < |commands| && !refused(i) ==> commands[i] != Unwatch && commands[i] != Multi
  }

  /** Some watch outlives the batch: an earlier one, or one set by it. */
  predicate LeavesWatch(watched: bool, commands: seq<Command>, refused: Marks) {
    || (watched && KeptFrom(commands, refused, 0))
    || exists j :: 0 <= j < |commands| && Takes(commands, refused, j) && KeptFrom(commands, refused, j + 1)
  }

  lemma {:induction false} OpenGrows(commands: seq<Command>, c: Command, refused: Marks)
    ensures var all, n := commands + [c], |commands|;
      Open(all, refused) <==> (Open(commands, refused) && !Closes(c, refused(n))) || (c == Multi && !refused(n))
  {
    var all, n := commands + [c], |commands|;
    if i :| 0 <= i < n && commands[i] == Multi && !refused(i) && forall j :: i < j < n ==>
        !Closes(commands[j], refused(j)) {
      assert all[i] == Multi;
      if !Closes(c, refused(n)) {
        assert Open(all, refused);
      }
    }
    if c == Multi && !refused(n) {
      assert all[n] == Multi;
    }
    if i :| 0 <= i < |all| && all[i] == Multi && !refused(i) && forall j :: i < j < |all| ==>
        !Closes(all[j], refused(j)) {
      if i < n {
        assert !Closes(all[n], refused(n));
        assert commands[i] == Multi && forall j :: i < j < n ==> commands[j] == all[j];
      }
    }
  }

  lemma {:induction false} LeavesGrows(watched: bool, commands: seq<Command>, c: Command, refused: Marks)
    ensures var all, n := commands + [c], |commands|;
      LeavesWatch(watched, all, refused) <==>
        || (LeavesWatch(watched, commands, refused) && (refused(n) || (c != Unwatch && c != Multi)))
        || (c == Watch && !refused(n) && !Open(commands, refused))
  {
    hide Open;
    var all, n := commands + [c], |commands|;
    assert all[..n] == commands;
    forall j | 0 <= j < n ensures Takes(all, refused, j) == Takes(commands, refused, j) {
      assert all[..j] == commands[..j];
    }
    forall i | 0 <= i <= n
      ensures KeptFrom(all, refused, i) <==>
          KeptFrom(commands, refused, i) && (refused(n) || (c != Unwatch && c != Multi))
    {
      assert all[n] == c && forall k :: 0 <= k < n ==> all[k] == commands[k];
    }
    assert Takes(all, refused, n) <==> c == Watch && !refused(n) && !Open(commands, refused);
    assert KeptFrom(all, refused, n + 1);
  }

  /** While a transaction is open, no watch outlives its closing. */
  lemma {:induction false} OpenKeepsNoWatch(watched: bool, commands: seq<Command>, refused: Marks)
    requires Open(commands, refused)
    ensures !LeavesWatch(watched, commands, refused)
  {
    var i :| 0 <= i < |commands| && commands[i] == Multi && !refused(i) &&
      forall j :: i < j < |commands| ==> !Closes(commands[j], refused(j));
    forall j | i < j <= |commands| ensures Open(commands[..j], refused) {
      assert commands[..j][i] == Multi;
    }
  }

  /** Exactly what any batch leaves behind, whatever is refused. */
  lemma {:induction false} SessionAfter(s: Session, commands: seq<Command>, refused: Marks, touched: Marks)
    requires !s.multi
    ensures var after := ServeAll(s, commands, refused, touched).0;
      (after.multi <==> Open(commands, refused)) &&
      (!after.multi ==> (after.watched <==> LeavesWatch(s.watched, commands, refused)))
  {
    if commands != [] {
      var n := |commands| - 1;
      var init, c := commands[..n], commands[n];
      assert commands == init + [c];
      SessionAfter(s, init, refused, touched);
      OpenGrows(init, c, refused);
      LeavesGrows(s.watched, init, c, refused);
      if Open(init, refused) {
        OpenKeepsNoWatch(s.watched, init, refused);
      }
      hide Open, LeavesWatch;
      var before := ServeAll(s, init, refused, touched).0;
      assert ServeAll(s, commands, refused, touched).0 == Serve(before, c, refused(n), touched(n)).0;
    }
  }

  // ---------------------------------------------------------------- transactions

  const NONE: Marks := n => false

  /** Behind some DISCARD or EXEC no MULTI follows, but a WATCH does, and no UNWATCH follows that. */
  predicate Leaky(stack: seq<Command>) {
    exists i, j :: 0 <= i < j < |stack| && stack[i] in {Discard, Exec} && stack[j] == Watch &&
      (forall k :: i < k < |stack| ==> stack[k] != Multi) && forall k :: j < k < |stack| ==> stack[k] != Unwatch
  }

  /** After EXEC no transaction is open, and what a transaction leaves does not depend on what was watched before it. */
  lemma {:induction false} TransactionCloses(s: Session, stack: seq<Command>, refused: Marks, touched: Marks)
    requires !s.multi
    ensures var (after, answers) := ServeAll(s, Transaction(stack), refused, touched);
      && !after.multi && (after.watched <==> LeavesWatch(s.watched, Transaction(stack), refused))
      && (answers[|stack| + 1] != Failed ==> after == NEW_SESSION)
      && (!refused(0) ==> (after.watched <==> LeavesWatch(false, Transaction(stack), refused)))
  {
    var all := Transaction(stack);
    SessionAfter(s, all, refused, touched);
    assert all[|stack| + 1] == Exec && all[0] == Multi;
    assert !refused(0) ==> !KeptFrom(all, refused, 0);
    assert !Open(all, refused);
  }

  predicate AllAccepted(refused: Marks, n: nat) {
    forall i :: 0 <= i < n ==> !refused(i)
  }

  /** When nothing is refused, a watch outlives a transaction exactly when the stack is leaky. */
  lemma {:induction false} QueuedWatchLeaks(s: Session, stack: seq<Command>, refused: Marks, touched: Marks)
    requires !s.multi && AllAccepted(refused, |stack| + 2)
    ensures ServeAll(s, Transaction(stack), refused, touched).0.watched <==> Leaky(stack)
    ensures LeavesWatch(false, Transaction(stack), refused) <==> Leaky(stack)
  {
    hide LeavesWatch, Leaky, ServeAll;
    TransactionCloses(s, stack, refused, touched);
    if Leaky(stack) {
      LeakyLeaves(stack, refused);
    }
    if LeavesWatch(false, Transaction(stack), refused) {
      LeavesLeaky(stack, refused);
    }
  }

  lemma {:induction false} LeakyLeaves(stack: seq<Command>, refused: Marks)
    requires Leaky(stack) && AllAccepted(refused, |stack| + 2)
    ensures LeavesWatch(false, Transaction(stack), refused)
  {
    var all := Transaction(stack);
    var i, j :| 0 <= i < j < |stack| && stack[i] in {Discard, Exec} && stack[j] == Watch &&
      (forall k :: i < k < |stack| ==> stack[k] != Multi) && forall k :: j < k < |stack| ==> stack[k] != Unwatch;
    var before := all[..j + 1];
    assert before[i + 1] == stack[i] && all[j + 1] == Watch && !refused(i + 1) && !refused(j + 1);
    assert forall k :: i + 1 < k <= |stack| ==> all[k] == stack[k - 1];
    assert !Open(before, refused);
    assert Takes(all, refused, j + 1) && KeptFrom(all, refused, j + 2);
  }

  lemma {:induction false} LeavesLeaky(stack: seq<Command>, refused: Marks)
    requires LeavesWatch(false, Transaction(stack), refused) && AllAccepted(refused, |stack| + 2)
    ensures Leaky(stack)
  {
    var all := Transaction(stack);
    assert all[0] == Multi && !refused(0);
    var j :| 0 <= j < |all| && Takes(all, refused, j) && KeptFrom(all, refused, j + 1);
    var i := CloserBefore(all, refused, j);
    hide Open, LeavesWatch, Takes;
    forall k | i - 1 < k < |stack| ensures stack[k] != Multi && (k >= j ==> stack[k] != Unwatch) {
      assert stack[k] == all[k + 1] && !refused(k + 1);
    }
    assert stack[i - 1] == all[i] && stack[j - 1] == all[j];
  }

  lemma {:induction false} CloserBefore(commands: seq<Command>, refused: Marks, j: nat) returns (i: nat)
    requires j < |commands| && commands[0] == Multi && Takes(commands, refused, j) && AllAccepted(refused, |commands|)
    ensures commands[j] == Watch && 0 < i < j && commands[i] in {Discard, Exec} && forall k :: i < k <= j ==>
        commands[k] != Multi
  {
    var before := commands[..j];
    assert j > 0;
    var m := LastMulti(commands, j);
    assert before[m] == Multi && !refused(m);
    i :| m < i < j && Closes(before[i], refused(i));
  }

  /** The last MULTI before a position, when the first command is one. */
  function LastMulti(commands: seq<Command>, j: nat): (m: nat)
    requires 0 < j <= |commands| && commands[0] == Multi
    ensures m < j && commands[m] == Multi && forall k :: m < k < j ==> commands[k] != Multi
  {
    if commands[j - 1] == Multi then j - 1 else LastMulti(commands, j - 1)
  }

  // ---------------------------------------------------------------- what EXEC answers

  predicate Queues(c: Command, refused: bool) {
    !refused && c !in {Watch, Multi, Discard, Exec}
  }

  /** Outside every transaction. */
  predicate Fails(c: Command, refused: bool) {
    refused || c in {Discard, Exec}
  }

  predicate AllFail(commands: seq<Command>, refused: Marks) {
    forall i :: 0 <= i < |commands| ==> Fails(commands[i], refused(i))
  }

  /** The transaction begun at position `m` is still open, and everything since was queued. */
  predicate Begins(commands: seq<Command>, refused: Marks, m: nat) {
    && m < |commands| && commands[m] == Multi && !refused(m) && !Open(commands[..m], refused)
    && forall i :: m < i < |commands| ==> Queues(commands[i], refused(i))
  }

  predicate TouchedIn(touched: Marks, start: nat, end: nat) {
    exists i :: start <= i < end && touched(i)
  }

  /** Some watch outlives the batch, and before `end` one of its keys is changed. */
  predicate Spoiled(s: Session, commands: seq<Command>, refused: Marks, touched: Marks, end: nat) {
    || (s.watched && KeptFrom(commands, refused, 0) && (s.dirty || TouchedIn(touched, 0, end)))
    || exists j :: 0 <= j < |commands| && Takes(commands, refused, j) && KeptFrom(commands, refused, j + 1) &&
        TouchedIn(touched, j + 1, end)
  }

  function Errors(answers: seq<Answer>): (n: nat)
    ensures n <= |answers|
  {
    if answers == [] then 0
    else Errors(answers[..|answers| - 1]) + if answers[|answers| - 1] == Failed then 1 else 0
  }

  lemma {:induction false} OneMoreError(answers: seq<Answer>, i: nat)
    requires i < |answers|
    ensures Errors(answers[..i + 1]) == Errors(answers[..i]) + if answers[i] == Failed then 1 else 0
  {
    assert answers[..i + 1][..i] == answers[..i];
  }

  lemma {:induction false} SpoiledLater(s: Session, commands: seq<Command>, refused: Marks, touched: Marks, end: nat)
    requires |commands| <= end && (s.dirty ==> s.watched)
    ensures Spoiled(s, commands, refused, touched, end + 1) <==>
      Spoiled(s, commands, refused, touched, end) || (LeavesWatch(s.watched, commands, refused) && touched(end))
  {
    hide Takes, KeptFrom;
    forall j: nat | j <= end
      ensures TouchedIn(touched, j, end + 1) <==> TouchedIn(touched, j, end) || touched(end)
    {
      if i :| j <= i < end + 1 && touched(i) {
        assert i < end ==> TouchedIn(touched, j, end);
      }
    }
  }

  lemma {:induction false} SpoiledGrows(s: Session, commands: seq<Command>, c: Command, refused: Marks, touched: Marks,
      end: nat)
    requires end <= |commands| + 1
    ensures var n := |commands|;
      Spoiled(s, commands + [c], refused, touched, end) <==>
        Spoiled(s, commands, refused, touched, end) && (refused(n) || (c != Unwatch && c != Multi))
  {
    hide Open;
    var all, n := commands + [c], |commands|;
    assert all[..n] == commands;
    forall j | 0 <= j < n ensures Takes(all, refused, j) == Takes(commands, refused, j) {
      assert all[..j] == commands[..j];
    }
    forall i | 0 <= i <= n
      ensures KeptFrom(all, refused, i) <==>
          KeptFrom(commands, refused, i) && (refused(n) || (c != Unwatch && c != Multi))
    {
      assert all[n] == c && forall k :: 0 <= k < n ==> all[k] == commands[k];
    }
  }

  lemma {:induction false} SpoiledLeaves(s: Session, commands: seq<Command>, refused: Marks, touched: Marks, end: nat)
    ensures Spoiled(s, commands, refused, touched, end) ==> LeavesWatch(s.watched, commands, refused)
  {
    hide Takes, KeptFrom;
  }

  /** Outside a transaction, the watch is spoiled exactly when one that is in force was touched. */
  lemma {:induction false} DirtyAfter(s: Session, commands: seq<Command>, refused: Marks, touched: Marks)
    requires !s.multi && (s.dirty ==> s.watched)
    ensures var after := ServeAll(s, commands, refused, touched).0;
      !after.multi ==> (after.dirty <==> Spoiled(s, commands, refused, touched, |commands|))
  {
    if commands != [] {
      var n := |commands| - 1;
      var init, c := commands[..n], commands[n];
      assert commands == init + [c];
      hide *;
      DirtyAfter(s, init, refused, touched);
      SessionAfter(s, init, refused, touched);
      SpoiledLater(s, init, refused, touched, n);
      SpoiledGrows(s, init, c, refused, touched, n + 1);
      SpoiledLeaves(s, init, refused, touched, n + 1);
      if Open(init, refused) {
        OpenKeepsNoWatch(s.watched, init, refused);
      }
      NextServed(s, init, c, refused, touched);
      ServeDirty(ServeAll(s, init, refused, touched).0, c, refused(n), touched(n));
    }
  }

  lemma {:induction false} ServeDirty(before: Session, c: Command, refused: bool, touched: bool)
    ensures var after := Serve(before, c, refused, touched).0;
      !after.multi ==>
        var kept := refused || (c != Unwatch && c != Multi);
        (after.dirty <==> !before.multi && (before.dirty || (touched && before.watched)) && kept)
  {
  }

  lemma {:induction false} BeginsGrows(commands: seq<Command>, c: Command, refused: Marks, m: nat)
    ensures var n := |commands|;
      Begins(commands + [c], refused, m) <==>
        if m < n then Begins(commands, refused, m) && Queues(c, refused(n))
        else m == n && c == Multi && !refused(n) && !Open(commands, refused)
  {
    hide Open;
    var all, n := commands + [c], |commands|;
    if m <= n {
      assert all[..m] == commands[..m];
      assert forall i :: m < i <= n ==> all[i] == if i < n then commands[i] else c;
    }
    assert commands[..n] == commands;
  }

  /** What stands in an open transaction that can still be carried out. */
  ghost predicate Stands(s: Session, commands: seq<Command>, refused: Marks, touched: Marks, m: nat)
    requires m < |commands|
  {
    var (after, answers) := ServeAll(s, commands, refused, touched);
    && after == Session(LeavesWatch(s.watched, commands[..m], refused),
                        Spoiled(s, commands[..m], refused, touched, |commands|), true, false, |commands| - m - 1)
    && Errors(answers) == Errors(ServeAll(s, commands[..m], refused, touched).1)
  }

  /** A transaction that can still be carried out is one in which everything was queued. */
  lemma {:induction false} QueuedSession(s: Session, commands: seq<Command>, refused: Marks, touched: Marks)
    requires !s.multi && (s.dirty ==> s.watched)
    ensures var after := ServeAll(s, commands, refused, touched).0;
      after.multi && !after.aborted <==> exists m: nat :: Begins(commands, refused, m)
    ensures forall m: nat :: Begins(commands, refused, m) ==> Stands(s, commands, refused, touched, m)
  {
    hide Begins, Open, LeavesWatch, Spoiled, Stands, Errors, ServeAll;
    if commands == [] {
      NothingBegins(s, refused, touched);
    } else {
      var n := |commands| - 1;
      var init, c := commands[..n], commands[n];
      assert commands == init + [c];
      QueuedSession(s, init, refused, touched);
      SessionAfter(s, init, refused, touched);
      NextServed(s, init, c, refused, touched);
      forall m: nat ensures Begins(commands, refused, m) <==>
        if m < n then Begins(init, refused, m) && Queues(c, refused(n))
        else m == n && c == Multi && !refused(n) && !Open(init, refused)
      {
        BeginsGrows(init, c, refused, m);
      }
      forall m: nat | Begins(commands, refused, m)
        ensures m < |commands| && Stands(s, commands, refused, touched, m)
      {
        OneMoreStands(s, init, c, refused, touched, m);
      }
      var before := ServeAll(s, init, refused, touched).0;
      if m: nat :| Begins(init, refused, m) {
        BeginsWithin(init, refused, m);
        assert Begins(commands, refused, m) <==> Queues(c, refused(n));
      }
      assert Begins(commands, refused, n) <==> c == Multi && !refused(n) && !Open(init, refused);
    }
  }

  lemma {:induction false} NothingBegins(s: Session, refused: Marks, touched: Marks)
    ensures ServeAll(s, [], refused, touched).0 == s && forall m: nat :: !Begins([], refused, m)
  {
  }

  lemma {:induction false} OneMoreStands(s: Session, init: seq<Command>, c: Command, refused: Marks, touched: Marks,
      m: nat)
    requires !s.multi && (s.dirty ==> s.watched) && Begins(init + [c], refused, m)
    requires m < |init| ==> Stands(s, init, refused, touched, m)
    ensures Stands(s, init + [c], refused, touched, m)
  {
    hide Begins, Open, LeavesWatch, Spoiled, ServeAll, Errors;
    var n, commands := |init|, init + [c];
    BeginsGrows(init, c, refused, m);
    assert commands[..n] == init && commands[..m] == init[..m];
    NextServed(s, init, c, refused, touched);
    SpoiledLater(s, init[..m], refused, touched, n);
    if m == n {
      assert init[..n] == init;
      SessionAfter(s, init, refused, touched);
      DirtyAfter(s, init, refused, touched);
    }
  }

  lemma {:induction false} NextServed(s: Session, init: seq<Command>, c: Command, refused: Marks, touched: Marks)
    ensures var (before, sofar) := ServeAll(s, init, refused, touched);
      var (after, answer) := Serve(before, c, refused(|init|), touched(|init|));
      && ServeAll(s, init + [c], refused, touched) == (after, sofar + [answer])
      && Errors(sofar + [answer]) == Errors(sofar) + if answer == Failed then 1 else 0
  {
    var sofar, n := ServeAll(s, init, refused, touched).1, |init|;
    assert (init + [c])[..n] == init && (init + [c])[n] == c;
    var answer := ServeAll(s, init + [c], refused, touched).1[n];
    assert (sofar + [answer])[..n] == sofar;
  }

  /** Where the transaction that EXEC ends has begun, if it can be carried out. */
  ghost predicate CarriedOut(stack: seq<Command>, refused: Marks, m: nat) {
    Begins([Multi] + stack, refused, m) && !refused(|stack| + 1)
  }

  /**
   What EXEC answers after any stack: results exactly when the transaction begun last, after whatever closed the
   ones before it, stands and no watch in force at its beginning was touched; nil exactly when one was.
   */
  lemma {:induction false} ExecAnswer(s: Session, stack: seq<Command>, refused: Marks, touched: Marks)
    requires !s.multi && (s.dirty ==> s.watched)
    ensures var all, n := Transaction(stack), |stack|;
      var answer := ServeAll(s, all, refused, touched).1[n + 1];
      && answer != Fine
      && (answer.Results? <==>
            exists m: nat :: CarriedOut(stack, refused, m) && !Spoiled(s, all[..m], refused, touched, n + 2))
      && (answer == Nil <==>
            exists m: nat :: CarriedOut(stack, refused, m) && Spoiled(s, all[..m], refused, touched, n + 2))
      && (forall m: nat :: CarriedOut(stack, refused, m) && answer.Results? ==> answer.count == n - m)
  {
    hide Begins, Open, Spoiled, LeavesWatch, Errors, ServeAll;
    var all, n, queue := Transaction(stack), |stack|, [Multi] + stack;
    assert all == queue + [Exec];
    QueuedSession(s, queue, refused, touched);
    NextServed(s, queue, Exec, refused, touched);
    var before := ServeAll(s, queue, refused, touched).0;
    forall m: nat | CarriedOut(stack, refused, m)
      ensures before.dirty || (before.watched && touched(n + 1)) <==> Spoiled(s, all[..m], refused, touched, n + 2)
      ensures before.queued == n - m && before.multi && !before.aborted && !refused(n + 1)
    {
      BeginsWithin(queue, refused, m);
      assert all[..m] == queue[..m];
      assert Stands(s, queue, refused, touched, m);
      SpoiledLater(s, queue[..m], refused, touched, n + 1);
    }
    if before.multi && !before.aborted && !refused(n + 1) {
      var m: nat :| Begins(queue, refused, m);
      assert CarriedOut(stack, refused, m);
    }
  }

  /**
   A transaction under a touched watch is carried out at the server exactly when another one has begun behind it,
   and no watch that was set in between was touched.
   */
  lemma {:induction false} TouchedWatchCarriedOut(s: Session, stack: seq<Command>, refused: Marks, touched: Marks)
    requires !s.multi && s.watched && Changed(s, touched, |stack| + 2) && !refused(0)
    ensures var all, n := Transaction(stack), |stack|;
      ServeAll(s, all, refused, touched).1[n + 1].Results? <==>
        exists m: nat :: m > 0 && CarriedOut(stack, refused, m) &&
          !Spoiled(NEW_SESSION, all[..m], refused, touched, n + 2)
    ensures Multi !in stack ==> !ServeAll(s, Transaction(stack), refused, touched).1[|stack| + 1].Results?
  {
    hide ServeAll, Open;
    var all, n := Transaction(stack), |stack|;
    ExecAnswer(s, stack, refused, touched);
    forall m: nat | CarriedOut(stack, refused, m)
      ensures m <= n && (m > 0 ==> stack[m - 1] == Multi)
      ensures Spoiled(s, all[..m], refused, touched, n + 2) <==>
          m == 0 || Spoiled(NEW_SESSION, all[..m], refused, touched, n + 2)
    {
      assert ([Multi] + stack)[m] == Multi;
      assert m > 0 ==> all[..m][0] == Multi;
    }
  }

  lemma {:induction false} BeginsWithin(commands: seq<Command>, refused: Marks, m: nat)
    requires Begins(commands, refused, m)
    ensures m < |commands|
  {
  }

  // ---------------------------------------------------------------- the number of results

  /** All that was sent before some MULTI was refused, and all that was sent behind it was queued. */
  ghost predicate Whole(commands: seq<Command>, refused: Marks) {
    exists m: nat :: Alone(commands, refused, m)
  }

  predicate Alone(commands: seq<Command>, refused: Marks, m: nat) {
    && m < |commands| && commands[m] == Multi && !refused(m)
    && AllFail(commands[..m], refused)
    && forall i :: m < i < |commands| ==> Queues(commands[i], refused(i))
  }

  predicate Changed(s: Session, touched: Marks, n: nat) {
    s.dirty || TouchedIn(touched, 0, n)
  }

  /** EXEC's results and the errors noted before it are as many as the commands of the stack. */
  ghost predicate RightCount(stack: seq<Command>, answers: seq<Answer>)
    requires |answers| == |stack| + 2
  {
    var answer := answers[|stack| + 1];
    answer.Results? && answer.count + Errors(answers[..|stack| + 1]) == |stack|
  }

  lemma {:induction false} Fruitless(s: Session, commands: seq<Command>, refused: Marks, touched: Marks)
    requires !s.multi
    ensures var (after, answers) := ServeAll(s, commands, refused, touched);
      && (Errors(answers) == |commands| <==> AllFail(commands, refused))
      && (Errors(answers) == |commands| ==> !after.multi)
  {
    if commands != [] {
      var n := |commands| - 1;
      var init, c := commands[..n], commands[n];
      hide *;
      assert commands == init + [c];
      Fruitless(s, init, refused, touched);
      NextServed(s, init, c, refused, touched);
      FailsGrow(init, c, refused);
      ServeFails(ServeAll(s, init, refused, touched).0, c, refused(n), touched(n));
    }
  }

  lemma {:induction false} ServeFails(before: Session, c: Command, refused: bool, touched: bool)
    ensures var (after, answer) := Serve(before, c, refused, touched);
      !before.multi ==> (answer == Failed <==> Fails(c, refused)) && (answer == Failed ==> !after.multi)
  {
  }

  lemma {:induction false} FailsGrow(commands: seq<Command>, c: Command, refused: Marks)
    ensures var all, n := commands + [c], |commands|;
      AllFail(all, refused) <==> AllFail(commands, refused) && Fails(c, refused(n))
  {
    hide Fails;
    var all, n := commands + [c], |commands|;
    assert all[n] == c && forall i :: 0 <= i < n ==> all[i] == commands[i];
  }

  /** When everything fails, a watch that was there stays. */
  lemma {:induction false} FruitlessKeeps(s: Session, commands: seq<Command>, refused: Marks, touched: Marks, end: nat)
    requires AllFail(commands, refused)
    ensures !Open(commands, refused)
    ensures Spoiled(s, commands, refused, touched, end) <==> s.watched && Changed(s, touched, end)
  {
  }

  /**
   Whatever raw commands the stack has, the results are as many as they should be exactly when everything behind
   the one accepted MULTI was queued and no watched key was changed since the watch.
   */
  lemma {:induction false} RightCountExactly(s: Session, stack: seq<Command>, refused: Marks, touched: Marks)
    requires !s.multi && (s.dirty ==> s.watched)
    ensures var n := |stack|;
      RightCount(stack, ServeAll(s, Transaction(stack), refused, touched).1) <==>
        Whole([Multi] + stack, refused) && !refused(n + 1) && !(s.watched && Changed(s, touched, n + 2))
  {
    hide Begins, ServeAll, Open, Spoiled, LeavesWatch, Errors, Changed, Alone;
    var all, n, queue := Transaction(stack), |stack|, [Multi] + stack;
    var answers := ServeAll(s, all, refused, touched).1;
    assert all == queue + [Exec];
    NextServed(s, queue, Exec, refused, touched);
    assert answers[..n + 1] == ServeAll(s, queue, refused, touched).1;
    ExecAnswer(s, stack, refused, touched);
    QueuedSession(s, queue, refused, touched);
    forall m: nat | Begins(queue, refused, m)
      ensures m < |queue| && (Errors(answers[..n + 1]) == m <==> Alone(queue, refused, m))
      ensures Alone(queue, refused, m) ==>
          (Spoiled(s, all[..m], refused, touched, n + 2) <==> s.watched && Changed(s, touched, n + 2))
    {
      BeginsWithin(queue, refused, m);
      assert Stands(s, queue, refused, touched, m);
      assert all[..m] == queue[..m];
      Fruitless(s, queue[..m], refused, touched);
      AloneExactly(queue, refused, m);
      if Alone(queue, refused, m) {
        FruitlessKeeps(s, queue[..m], refused, touched, n + 2);
      }
    }
    if m: nat :| Alone(queue, refused, m) {
      AloneBegins(queue, refused, m);
    }
  }

  lemma {:induction false} AloneExactly(commands: seq<Command>, refused: Marks, m: nat)
    requires Begins(commands, refused, m)
    ensures m < |commands|
    ensures Alone(commands, refused, m) <==> AllFail(commands[..m], refused)
  {
  }

  lemma {:induction false} AloneBegins(commands: seq<Command>, refused: Marks, m: nat)
    requires Alone(commands, refused, m)
    ensures Begins(commands, refused, m)
  {
  }

  // ---------------------------------------------------------------- batches outside a transaction

  /** Whether one of the answered commands makes the client forget its watch. */
  predicate Unwatches(commands: seq<Command>, answers: seq<Answer>)
    requires |commands| == |answers|
  {
    exists i :: 0 <= i < |commands| && commands[i] in {Discard, Exec, Unwatch} && answers[i] != Failed
  }

  lemma {:induction false} OneMoreAnswer(commands: seq<Command>, answers: seq<Answer>, i: nat)
    requires |commands| == |answers| && i < |commands|
    ensures Unwatches(commands[..i + 1], answers[..i + 1]) <==>
      Unwatches(commands[..i], answers[..i]) || (commands[i] in {Discard, Exec, Unwatch} && answers[i] != Failed)
  {
  }

  predicate OpensNothing(commands: seq<Command>, refused: Marks) {
    forall i :: 0 <= i < |commands| && commands[i] == Multi ==> refused(i)
  }

  /** Outside MULTI the client forgets its watch exactly when the server does. */
  lemma {:induction false} PipelineWatch(s: Session, stack: seq<Command>, refused: Marks, touched: Marks)
    requires !s.multi && Watch !in stack && OpensNothing(stack, refused)
    ensures var (after, answers) := ServeAll(s, stack, refused, touched);
      !after.multi && (after.watched <==> s.watched && !Unwatches(stack, answers))
  {
    if stack != [] {
      var n := |stack| - 1;
      assert stack == stack[..n] + [stack[n]];
      PipelineWatch(s, stack[..n], refused, touched);
      var (before, sofar) := ServeAll(s, stack[..n], refused, touched);
      var (after, answers) := ServeAll(s, stack, refused, touched);
      assert answers[..n] == sofar && !before.multi;
      OneMoreAnswer(stack, answers, n);
      assert stack[..n + 1] == stack && answers[..n + 1] == answers;
    }
  }

  /** Whatever a pipeline sends without WATCH, the client still knows of a watch that is left. */
  lemma {:induction false} PipelineKnows(s: Session, stack: seq<Command>, refused: Marks, touched: Marks)
    requires !s.multi && Watch !in stack
    ensures var (after, answers) := ServeAll(s, stack, refused, touched);
      (after.multi <==> Open(stack, refused)) &&
      (!after.multi && after.watched ==> s.watched && !Unwatches(stack, answers))
  {
    hide Open, Unwatches;
    SessionAfter(s, stack, refused, touched);
    if OpensNothing(stack, refused) {
      PipelineWatch(s, stack, refused, touched);
    }
  }

  // ---------------------------------------------------------------- the objects

  /** An answered batch: the session it found, and how many sessions had been lost before. */
  datatype Entry = Entry(before: Session, losses: nat, commands: seq<Command>, refused: Marks, touched: Marks) {
    ghost function After(): Session {
      ServeAll(before, commands, refused, touched).0
    }

    ghost function Replies(): seq<Answer> {
      ServeAll(before, commands, refused, touched).1
    }

    /** For a transaction of this stack: EXEC's results do not fit the stack. */
    ghost predicate Miscounts(stack: seq<Command>) {
      && |Replies()| == |stack| + 2 && Replies()[|stack| + 1] != Failed && Replies()[|stack| + 1] != Nil
      && !RightCount(stack, Replies())
    }

    /** What becomes of a transaction of this stack. */
    ghost function Ends(stack: seq<Command>): Outcome
      requires commands == Transaction(stack)
    {
      if RightCount(stack, Replies()) then Done
      else if Replies()[|stack| + 1] == Nil then WatchError
      else ResponseError
    }
  }

  /** A connection. Losing it ends what the server kept for it; the next exchange connects again. */
  class Connection {
    var session: Session
    var turns: seq<Turn>
    /** The batches that were answered, in order, and the number of times the connection was lost or closed. */
    ghost var log: seq<Entry>
    ghost var losses: nat

    constructor (turns: seq<Turn>)
      ensures session == NEW_SESSION && this.turns == turns && log == [] && losses == 0
    {
      session, this.turns, log, losses := NEW_SESSION, turns, [], 0;
    }

    /** The client closes the connection. */
    method Disconnect()
      modifies this
      ensures session == NEW_SESSION && turns == old(turns) && log == old(log) && losses == old(losses) + 1
    {
      session, losses := NEW_SESSION, losses + 1;
    }

    function NextTurn(): Turn
      reads this
    {
      if |turns| > 0 then turns[0] else Answered(NONE, NONE)
    }

    method Exchange(commands: seq<Command>) returns (r: Exchanged, ghost entry: Entry)
      modifies this
      ensures r.Answers? ==>
        && entry.before == old(session) && entry.losses == losses && entry.commands == commands
        && session == entry.After() && r.answers == entry.Replies()
        && log == old(log) + [entry] && losses == old(losses)
      ensures r.Broken? ==>
          session == NEW_SESSION && log == old(log) && losses == old(losses) + 1 && |turns| < |old(turns)|
      ensures |turns| <= |old(turns)|
      ensures match old(NextTurn())
              case Answered(refused, touched) => r.Answers? && entry.refused == refused && entry.touched == touched
              case Lost(timedOut) => r == Broken(timedOut)
    {
      var turn := NextTurn();
      turns := if |turns| > 0 then turns[1..] else turns;
      entry := Entry(session, losses, commands, NONE, NONE);
      match turn
      case Answered(refused, touched) =>
        entry := Entry(session, losses, commands, refused, touched);
        var (after, answers) := ServeAll(session, commands, refused, touched);
        session, log := after, log + [entry];
        return Answers(answers), entry;
      case Lost(timedOut) =>
        session, losses := NEW_SESSION, losses + 1;
        return Broken(timedOut), entry;
    }
  }

  lemma {:induction false} OneServed(s: Session, c: Command, refused: Marks, touched: Marks)
    ensures ServeAll(s, [c], refused, touched) ==
            (Serve(s, c, refused(0), touched(0)).0, [Serve(s, c, refused(0), touched(0)).1])
  {
    assert [c][..0] == [];
    var answer := Serve(s, c, refused(0), touched(0)).1;
    assert [] + [answer] == [answer];
  }

  /** A single command outside every transaction. */
  lemma {:induction false} OneAnswer(s: Session, c: Command, refused: bool, touched: bool)
    requires !s.multi
    ensures var (after, answer) := Serve(s, c, refused, touched);
      && answer in {Fine, Failed} && (after.multi <==> c == Multi && answer == Fine)
      && (answer != Failed ==> c != Exec && c != Discard)
      && (after.watched <==> if answer == Fine && c in {Watch, Unwatch} then c == Watch else s.watched)
  {
  }

  class Pipeline {
    /** The connection the pool hands out to this pipeline, which has it while it is `held`. */
    const conn: Connection
    const transaction: bool
    const retries: int
    const retryOnError: bool
    var held: bool
    var watching: bool
    var explicitTransaction: bool
    var stack: seq<Command>

    constructor (conn: Connection, transaction: bool, retries: int, retryOnError: bool)
      requires conn.session == NEW_SESSION
      ensures Valid() && Safe() && Faithful() && !held && !watching && !explicitTransaction && stack == []
      ensures this.conn == conn && this.transaction == transaction && this.retries == retries
          && this.retryOnError == retryOnError
    {
      this.conn, this.transaction, this.retries, this.retryOnError := conn, transaction, retries, retryOnError;
      held, watching, explicitTransaction, stack := false, false, false, [];
    }

    /** WATCH is queued only inside an explicit transaction. */
    ghost predicate Valid()
      reads this, conn
    {
      (Watch in stack ==> explicitTransaction) && (conn.session.dirty ==> conn.session.watched)
    }

    /**
     A watch at the server is one the pipeline knows of, and is holding the connection for:
     a connection that has been released carries no watch and no open transaction.
     */
    ghost predicate Safe()
      reads this, conn
    {
      !conn.session.multi && (conn.session.watched ==> watching && held)
    }

    /** Nor does the pipeline believe in a watch that the server has lost. */
    ghost predicate Faithful()
      reads this, conn
    {
      watching ==> conn.session.watched
    }

    predicate Cleared()
      reads this
    {
      !held && !watching && !explicitTransaction && stack == []
    }

    method SendAndRead(c: Command) returns (r: Exchanged, ghost entry: Entry)
      requires Valid()
      modifies conn
      ensures Valid() && |conn.turns| <= |old(conn.turns)|
      ensures r.Broken? ==>
        && conn.session == NEW_SESSION && |conn.turns| < |old(conn.turns)|
        && conn.log == old(conn.log) && conn.losses == old(conn.losses) + 1
      ensures r.Answers? ==>
        && |r.answers| == 1 && conn.log == old(conn.log) + [entry] && conn.losses == old(conn.losses)
        && entry.before == old(conn.session) && entry.commands == [c]
        && (conn.session, r.answers[0]) == Serve(old(conn.session), c, entry.refused(0), entry.touched(0))
        && entry.Replies() == r.answers
      ensures match old(conn.NextTurn())
              case Answered(refused, _) => r.Answers? && entry.refused == refused
              case Lost(timedOut) => r == Broken(timedOut)
    {
      r, entry := conn.Exchange([c]);
      if r.Answers? {
        OneServed(entry.before, c, entry.refused, entry.touched);
      }
    }

    /** False stands for the exception of an UNWATCH that was refused or timed out, which leaves the connection held. */
    method Reset() returns (completed: bool)
      requires Valid()
      modifies this, conn
      ensures Valid() && stack == [] && |conn.turns| <= |old(conn.turns)|
      ensures completed ==> Cleared()
      ensures !completed ==> old(watching) && watching && held
      ensures old(watching) && old(held) ==>
        completed == match old(conn.NextTurn())
          case Answered(refused, _) => !refused(0)
          case Lost(timedOut) => !timedOut
      ensures !(old(watching) && old(held)) ==>
        completed && conn.session == old(conn.session) && conn.log == old(conn.log) && conn.losses == old(conn.losses)
      ensures old(watching) && old(held) ==>
        || (conn.session == NEW_SESSION && conn.log == old(conn.log) && conn.losses == old(conn.losses) + 1)
        || (conn.losses == old(conn.losses) && |conn.log| == |old(conn.log)| + 1
            && conn.log[..|old(conn.log)|] == old(conn.log) &&
            conn.log[|old(conn.log)|].commands == [Unwatch] && conn.session.multi == old(conn.session.multi) &&
            (completed && !conn.session.multi ==> conn.session == old(conn.session).(watched := false, dirty := false)))
      ensures old(Safe()) ==> Safe()
    {
      stack := [];
      if watching && held {
        var r, entry := SendAndRead(Unwatch);
        if r.Answers? {
          if r.answers[0] == Failed {
            return false;
          }
        } else if r.timedOut {
          return false;
        }
      }
      watching, explicitTransaction, held := false, false, false;
      return true;
    }

    method BeginMulti() returns (outcome: Outcome)
      requires Valid()
      modifies this
      ensures Valid() && (old(Safe()) ==> Safe()) && (old(Faithful()) ==> Faithful())
      ensures outcome == if old(explicitTransaction) || old(stack) != [] then RedisError else Done
      ensures explicitTransaction == (old(explicitTransaction) || outcome == Done)
      ensures held == old(held) && watching == old(watching) && stack == old(stack)
    {
      if explicitTransaction {
        return RedisError;
      }
      if stack != [] {
        return RedisError;
      }
      explicitTransaction := true;
      return Done;
    }

    /** What an immediate command, sent outside every transaction, may have done by the time it returns. */
    twostate predicate Immediately(c: Command, outcome: Outcome)
      reads this, conn
    {
      && (outcome in {Done, ResponseError} ==>
            && |conn.log| == |old(conn.log)| + 1 && conn.log[..|old(conn.log)|] == old(conn.log)
            && conn.log[|old(conn.log)|].commands == [c]
            && (outcome == Done <==> conn.log[|old(conn.log)|].Replies() != [Failed]))
      && (outcome == WatchError ==> conn.losses > old(conn.losses))
      && (outcome == WatchError ==> old(watching) && Cleared() && conn.session == NEW_SESSION)
      // Attempts are repeated only when nothing is watched and the error may be retried, and only so often.
      && (outcome in {Done, ResponseError} && (old(watching) || !retryOnError) ==> conn.losses == old(conn.losses))
      && (outcome in {Done, ResponseError} && retries >= 0 ==> conn.losses <= old(conn.losses) + retries)
      && (outcome.Unreachable? ==>
            if retryOnError then retries >= 0 && conn.losses == old(conn.losses) + retries + 1
            else conn.losses == old(conn.losses) + 1)
      // Nothing but an accepted MULTI leads out of the safe states.
      && (old(Safe()) ==> (Safe() <==> !(c == Multi && outcome == Done)))
      && (old(Safe()) && old(Faithful()) && outcome != ResetFailed ==> Faithful())
      && (old(Safe()) && outcome == Done && c == Watch ==> watching && conn.session.watched && held)
      && (old(Safe()) && outcome == Done && c == Unwatch ==> !watching && !conn.session.watched)
    }

    /** Any command, the ones that have a method of their own included: queued, or sent at once. */
    method ExecuteCommand(c: Command) returns (outcome: Outcome)
      requires Valid()
      modifies this, conn
      ensures Valid()
      ensures outcome == Queued <==> (!old(watching) && c != Watch) || old(explicitTransaction)
      ensures outcome == Queued ==> stack == old(stack) + [c] && watching == old(watching) && held == old(held)
      ensures outcome == Queued ==>
          conn.session == old(conn.session) && conn.log == old(conn.log) && conn.losses == old(conn.losses)
      ensures outcome != Queued ==> Immediately(c, outcome)
    {
      if (watching || c == Watch) && !explicitTransaction {
        outcome := ImmediateExecuteCommand(c);
      } else {
        stack := stack + [c];
        outcome := Queued;
      }
    }

    /** One attempt: an answer other than an error changes what the client believes. */
    method SendCommandParseResponse(c: Command) returns (r: Exchanged, outcome: Outcome)
      requires Valid() && held
      modifies `watching, conn
      ensures Valid() && |conn.turns| <= |old(conn.turns)|
      ensures r.Broken? ==>
        && watching == old(watching) && conn.session == NEW_SESSION && |conn.turns| < |old(conn.turns)|
        && conn.log == old(conn.log) && conn.losses == old(conn.losses) + 1
      ensures r.Answers? ==>
        && outcome in {Done, ResponseError} && conn.losses == old(conn.losses)
        && |conn.log| == |old(conn.log)| + 1 && conn.log[..|old(conn.log)|] == old(conn.log)
        && conn.log[|old(conn.log)|].commands == [c]
        && (outcome == Done <==> conn.log[|old(conn.log)|].Replies() != [Failed])
      ensures r.Answers? && old(Safe()) ==>
        && (Safe() <==> !(c == Multi && outcome == Done)) && (old(Faithful()) ==> Faithful())
        && (outcome == Done && c == Watch ==> watching && conn.session.watched)
        && (outcome == Done && c == Unwatch ==> !watching && !conn.session.watched)
    {
      hide ServeAll, Serve;
      ghost var before := conn.session;
      ghost var entry;
      r, entry := SendAndRead(c);
      if r.Broken? {
        return r, Unreachable(r.timedOut);
      }
      if !before.multi {
        OneAnswer(before, c, entry.refused(0), entry.touched(0));
      }
      if r.answers[0] == Failed {
        return r, ResponseError;
      }
      if c in {Discard, Exec, Unwatch} {
        watching := false;
      } else if c == Watch {
        watching := true;
      }
      return r, Done;
    }

    method ImmediateExecuteCommand(c: Command) returns (outcome: Outcome)
      requires Valid()
      modifies this, conn
      ensures Valid() && outcome != Queued && outcome != RedisError
      ensures Immediately(c, outcome)
    {
      held := true;
      var failures := 0;
      while true
        invariant Valid() && held && watching == old(watching) && explicitTransaction == old(explicitTransaction)
        invariant old(Safe()) ==> Safe()
        invariant old(Safe()) && old(Faithful()) ==> Faithful()
        invariant conn.log == old(conn.log) && failures == conn.losses - old(conn.losses) >= 0
        invariant failures > 0 ==> !watching && retryOnError && (retries >= 0 ==> failures <= retries)
        decreases |conn.turns|
      {
        var r;
        r, outcome := SendCommandParseResponse(c);
        if r.Answers? {
          return;
        }
        failures := failures + 1;
        if watching || !retryOnError {
          var believed := watching;
          var completed := Reset();
          if !completed {
            outcome := ResetFailed;
          } else {
            outcome := if believed then WatchError else Unreachable(r.timedOut);
          }
          return;
        }
        if 0 <= retries < failures {
          return Unreachable(r.timedOut);
        }
      }
    }

    method WatchKeys() returns (outcome: Outcome)
      requires Valid()
      modifies this, conn
      ensures Valid() && outcome != Queued
      ensures old(explicitTransaction) ==>
        outcome == RedisError && stack == old(stack) && watching == old(watching) && conn.session == old(conn.session)
      ensures !old(explicitTransaction) ==> Immediately(Watch, outcome)
    {
      if explicitTransaction {
        return RedisError;
      }
      outcome := ExecuteCommand(Watch);
    }

    method UnwatchKeys() returns (outcome: Outcome)
      requires Valid()
      modifies this, conn
      ensures Valid()
      ensures !old(watching) ==> outcome == Done && conn.session == old(conn.session) && watching == old(watching)
      ensures old(watching) && !old(explicitTransaction) ==> Immediately(Unwatch, outcome)
      ensures old(watching) && old(explicitTransaction) ==> outcome == Queued && stack == old(stack) + [Unwatch]
    {
      if !watching {
        return Done;
      }
      outcome := ExecuteCommand(Unwatch);
    }

    predicate Transactional()
      reads this
    {
      transaction || explicitTransaction
    }

    /** What execute sends. */
    function Batch(): seq<Command>
      reads this
    {
      if Transactional() then Transaction(stack) else stack
    }

    /** What the repeated attempts of execute come to; `batch` is the answered attempt, if there was one. */
    twostate predicate Attempted(outcome: Outcome, new batch: Option<Entry>)
      reads this, conn
    {
      && (batch.None? ==> outcome.Unreachable? || (outcome == WatchError && conn.losses > old(conn.losses)))
      && (outcome.Unreachable? ==>
            if retryOnError then retries >= 0 && conn.losses == old(conn.losses) + retries + 1
            else conn.losses == old(conn.losses) + 1)
      && (batch.Some? ==> outcome in {Done, ResponseError, WatchError} && batch.value.commands == old(Batch()))
      && (batch.Some? ==>
          old(conn.losses) <= batch.value.losses && (retries >= 0 ==> batch.value.losses <= old(conn.losses) + retries))
      && (batch.Some? && (old(watching) || !retryOnError) ==> batch.value.losses == old(conn.losses))
      && (batch.Some? ==>
          batch.value.before == if batch.value.losses == old(conn.losses) then old(conn.session) else NEW_SESSION)
      && (batch.Some? && old(Transactional()) ==>
            outcome == batch.value.Ends(old(stack)))
      && (batch.Some? && !old(Transactional()) ==> outcome == Done)
      && (old(watching) ==> !outcome.Unreachable?)
      && (old(watching) && batch.None? ==> outcome == WatchError)
      && (outcome == WatchError ==> old(watching) || old(Transactional()))
    }

    /** False stands for a lost connection. */
    method ExecuteTransaction() returns (answered: bool, outcome: Outcome, ghost entry: Entry)
      requires Valid() && held
      modifies `watching, conn
      ensures Valid() && |conn.turns| <= |old(conn.turns)|
      ensures !answered ==>
        && outcome.Unreachable? && watching == old(watching) && |conn.turns| < |old(conn.turns)|
        && conn.session == NEW_SESSION && conn.log == old(conn.log) && conn.losses == old(conn.losses) + 1
      ensures answered ==>
        && entry.before == old(conn.session) && entry.losses == old(conn.losses)
        && entry.commands == Transaction(stack)
        && conn.session == entry.After() && conn.log == old(conn.log) + [entry]
        && conn.losses == entry.losses + (if entry.Miscounts(stack) then 1 else 0)
        && (entry.Miscounts(stack) ==> conn.session == NEW_SESSION)
        && outcome == entry.Ends(stack)
        && watching == (old(watching) && entry.Replies()[|stack| + 1] == Failed)
    {
      hide ServeAll, Serve, Errors;
      var r;
      r, entry := conn.Exchange(Transaction(stack));
      if r.Broken? {
        return false, Unreachable(r.timedOut), entry;
      }
      var errors: nat := 0;
      for i := 0 to |stack| + 1
        invariant errors == Errors(r.answers[..i])
        modifies {}
      {
        OneMoreError(r.answers, i);
        if r.answers[i] == Failed {
          errors := errors + 1;
        }
      }
      var exec := r.answers[|stack| + 1];
      DirtyIsWatched(entry.before, entry.commands, entry.refused, entry.touched);
      ExecEnds(entry.before, stack, entry.refused, entry.touched);
      if exec == Failed {
        return true, ResponseError, entry;
      }
      watching := false;
      if exec == Nil {
        return true, WatchError, entry;
      }
      if exec.count + errors != |stack| {
        conn.Disconnect();
        return true, ResponseError, entry;
      }
      return true, Done, entry;
    }

    method ExecutePipeline() returns (answered: bool, outcome: Outcome, ghost entry: Entry)
      requires Valid() && held
      modifies `watching, conn
      ensures Valid() && |conn.turns| <= |old(conn.turns)|
      ensures !answered ==>
        && outcome.Unreachable? && watching == old(watching) && |conn.turns| < |old(conn.turns)|
        && conn.session == NEW_SESSION && conn.log == old(conn.log) && conn.losses == old(conn.losses) + 1
      ensures answered ==>
        && outcome == Done && entry.before == old(conn.session)
        && entry.losses == conn.losses == old(conn.losses) && entry.commands == stack
        && conn.session == entry.After() && conn.log == old(conn.log) + [entry]
        && watching == (old(watching) && !Unwatches(stack, entry.Replies()))
    {
      hide ServeAll, Serve;
      var r;
      r, entry := conn.Exchange(stack);
      if r.Broken? {
        return false, Unreachable(r.timedOut), entry;
      }
      DirtyIsWatched(entry.before, entry.commands, entry.refused, entry.touched);
      for i := 0 to |stack|
        invariant watching == (old(watching) && !Unwatches(stack[..i], r.answers[..i]))
        modifies `watching
      {
        OneMoreAnswer(stack, r.answers, i);
        if stack[i] in {Discard, Exec, Unwatch} && r.answers[i] != Failed {
          watching := false;
        }
      }
      assert stack[..|stack|] == stack && r.answers[..|stack|] == r.answers;
      return true, Done, entry;
    }

    /** The attempts of execute, until one is answered or the error is raised. */
    method ExecuteWithRetry() returns (outcome: Outcome, ghost batch: Option<Entry>)
      requires Valid() && held
      modifies this, conn
      ensures Valid() && Attempted(outcome, batch)
      ensures batch.Some? ==>
        && conn.session == batch.value.After() && conn.log == old(conn.log) + [batch.value]
        && conn.losses == batch.value.losses + (if Wrong(old(Transactional()), old(stack), batch.value) then 1 else 0)
        && (Wrong(old(Transactional()), old(stack), batch.value) ==> conn.session == NEW_SESSION)
        && held && watching == (old(watching) && Remembers(old(Transactional()), batch.value))
      ensures batch.None? ==>
        conn.session == NEW_SESSION && conn.log == old(conn.log)
            && (if old(watching) then watching && held else !watching)
    {
      hide ServeAll, Serve, Open, LeavesWatch, Unwatches;
      batch := None;
      var failures := 0;
      while true
        invariant Valid() && held && watching == old(watching) && stack == old(stack)
        invariant explicitTransaction == old(explicitTransaction)
        invariant failures > 0 ==> !watching && retryOnError && conn.session == NEW_SESSION
        invariant failures == 0 ==> conn.session == old(conn.session)
        invariant conn.losses == old(conn.losses) + failures && conn.log == old(conn.log)
        invariant failures >= 0 && (retries >= 0 ==> failures <= retries || failures == 0)
        decreases |conn.turns|
      {
        var answered;
        ghost var entry;
        if Transactional() {
          answered, outcome, entry := ExecuteTransaction();
        } else {
          answered, outcome, entry := ExecutePipeline();
        }
        if answered {
          return outcome, Some(entry);
        }
        failures := failures + 1;
        if watching {
          return WatchError, None;
        }
        if !retryOnError {
          var completed := Reset();
          return outcome, None;
        }
        if 0 <= retries < failures {
          return outcome, None;
        }
      }
    }

    ghost predicate Wrong(transactional: bool, stack: seq<Command>, e: Entry) {
      transactional && e.Miscounts(stack)
    }

    /** Whether the client still believes in its watch after an answered batch. */
    ghost predicate Remembers(transactional: bool, e: Entry) {
      if transactional then |e.commands| > 0 && e.Replies()[|e.commands| - 1] == Failed
      else !Unwatches(e.commands, e.Replies())
    }

    /** What an answered batch and the reset after it leave, starting from a safe state. */
    twostate predicate SafeExactly(new batch: Option<Entry>)
      reads this, conn
    {
      match batch
      case None => Safe()
      case Some(e) =>
        if old(Transactional()) then Safe() <==> old(watching) || !LeavesWatch(false, e.commands, e.refused)
        else Safe() <==> !Open(e.commands, e.refused) || conn.losses > e.losses
    }

    /**
     execute. A transaction under a watch ends well only in the session of that watch, and exactly when everything
     was queued and nothing watched was changed until EXEC; what the connection still carries is said exactly.
     */
    method Execute() returns (outcome: Outcome, ghost batch: Option<Entry>)
      requires Valid()
      modifies this, conn
      ensures Valid()
      ensures old(stack) == [] && !old(watching) ==>
        outcome == Done && batch == None && conn.session == old(conn.session) && conn.log == old(conn.log)
            && held == old(held)
      ensures (old(stack) != [] || old(watching)) && outcome != ResetFailed ==> Cleared() && Attempted(outcome, batch)
      ensures (old(stack) != [] || old(watching)) && batch.Some? ==>
        |conn.log| > |old(conn.log)| && conn.log[..|old(conn.log)| + 1] == old(conn.log) + [batch.value]
      ensures old(watching) && old(Transactional()) && outcome == Done ==>
        batch.Some? && batch.value.losses == old(conn.losses) && batch.value.before == old(conn.session)
      ensures old(Safe()) && old(Transactional()) && batch.Some? && outcome != ResetFailed ==>
        (outcome == Done <==> CompleteAndUnchanged(old(stack), batch.value))
      ensures batch.Some? && Wrong(old(Transactional()), old(stack), batch.value) ==>
        outcome == ResponseError && conn.session == NEW_SESSION && conn.losses == batch.value.losses + 1
      ensures old(Safe()) ==> SafeExactly(batch)
    {
      hide ServeAll, Serve, Open, LeavesWatch, Unwatches, Whole, Changed, RightCount, Errors;
      batch := None;
      if stack == [] && !watching {
        return Done, None;
      }
      held := true;
      outcome, batch := ExecuteWithRetry();
      if batch.Some? && !batch.value.before.multi {
        BatchLeaves(old(Transactional()), old(stack), batch.value);
      }
      var completed := Reset();
      if !completed {
        outcome := ResetFailed;
      }
    }

    /** Everything was queued behind the one MULTI that was accepted, and no watched key was changed until EXEC. */
    ghost predicate CompleteAndUnchanged(stack: seq<Command>, e: Entry) {
      && Whole([Multi] + stack, e.refused) && !e.refused(|stack| + 1)
      && !(e.before.watched && Changed(e.before, e.touched, |stack| + 2))
    }

    /** The lemmas above, for an answered batch. */
    lemma {:induction false} BatchLeaves(transactional: bool, stack: seq<Command>, e: Entry)
      requires !e.before.multi && (e.before.dirty ==> e.before.watched)
      requires e.commands == if transactional then Transaction(stack) else stack
      requires !transactional ==> Watch !in stack
      ensures transactional ==>
        && !e.After().multi && (e.After().watched <==> LeavesWatch(e.before.watched, e.commands, e.refused))
        && (!Remembers(true, e) ==> e.After() == NEW_SESSION)
        && (e.Ends(stack) == Done <==> CompleteAndUnchanged(stack, e))
      ensures !transactional ==>
        && (e.After().multi <==> Open(e.commands, e.refused))
        && (!e.After().multi && e.After().watched ==> e.before.watched && Remembers(false, e))
    {
      hide ServeAll, Open, LeavesWatch, Unwatches, Whole, Changed, RightCount, Errors;
      if transactional {
        TransactionCloses(e.before, stack, e.refused, e.touched);
        RightCountExactly(e.before, stack, e.refused, e.touched);
      } else {
        PipelineKnows(e.before, stack, e.refused, e.touched);
      }
    }
  }

  /** EXEC answers with results or nil, and then leaves nothing, or it fails. */
  lemma {:induction false} ExecEnds(s: Session, stack: seq<Command>, refused: Marks, touched: Marks)
    ensures var (after, answers) := ServeAll(s, Transaction(stack), refused, touched);
      var answer := answers[|stack| + 1];
      answer != Fine && (answer != Failed ==> after == NEW_SESSION)
  {
  }

  lemma {:induction false} DirtyIsWatched(s: Session, commands: seq<Command>, refused: Marks, touched: Marks)
    requires s.dirty ==> s.watched
    ensures var after := ServeAll(s, commands, refused, touched).0; after.dirty ==> after.watched
  {
    if commands != [] {
      DirtyIsWatched(s, commands[..|commands| - 1], refused, touched);
    }
  }
}
