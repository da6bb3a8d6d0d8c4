/**
 What the threads of semestr2/Task3/src/proxy.c do with the descriptors of their clients.  On several
 paths a thread closes its client's descriptor twice; in between, accept may have given the number to
 another client.  A connection is named by the thread that serves it.
 */
module ProxyDescriptors {
  import opened Wrappers

  /** What a thread does with its descriptor, in order. */
  datatype Op = Write | Close

  /** The ways through execute_client_request. */
  datatype Path =
    | Hit                          // write the copy, close it there, close it again in the caller
    | Miss(chunks: nat)            // write each chunk, then close
    | ConnectFailed                // close, then fail to write to the server and close again
    | RequestFailed                // fail to write to the server, close
    | ChunkFailed(chunks: nat)     // the last write fails, close
    | CopyFailed(rest: Path)       // fail to write the copy, close, and go on as after a miss

  function Writes(n: nat): seq<Op> {
    seq(n, _ => Write)
  }

  function Script(p: Path): seq<Op> {
    match p
    case Hit => [Write, Close, Close]
    case Miss(n) => Writes(n) + [Close]
    case ConnectFailed => [Close, Close]
    case RequestFailed => [Close]
    case ChunkFailed(n) => Writes(n) + [Write, Close]
    case CopyFailed(rest) => [Write, Close] + Script(rest)
  }

  /** `done` operations of the script have been made, on descriptor `fd` once the client is accepted. */
  datatype Thread = Thread(script: seq<Op>, done: nat, fd: Option<nat>)

  /** `table` are the open descriptors; `wrong` says that a write reached another thread's client. */
  datatype State = State(table: map<nat, nat>, threads: seq<Thread>, wrong: bool)

  datatype Action = Accept(t: nat, fd: nat) | Act(t: nat)

  predicate Enabled(s: State, a: Action) {
    && a.t < |s.threads|
    && match a
       case Accept(t, fd) => s.threads[t].fd.None? && fd !in s.table
       case Act(t) => s.threads[t].fd.Some? && s.threads[t].done < |s.threads[t].script|
  }

  /** write and close on a number that is not open fail and do nothing. */
  function Step(s: State, a: Action): State
    requires Enabled(s, a)
  {
    var th := s.threads[a.t];
    match a
    case Accept(t, fd) => s.(table := s.table[fd := t], threads := s.threads[t := th.(fd := Some(fd))])
    case Act(t) =>
      var f, s' := th.fd.value, s.(threads := s.threads[t := th.(done := th.done + 1)]);
      match th.script[th.done]
      case Write => s'.(wrong := s.wrong || (f in s.table && s.table[f] != t))
      case Close => s'.(table := s.table - {f})
  }

  function Init(scripts: seq<seq<Op>>): State {
    State(map[], seq(|scripts|, t requires 0 <= t < |scripts| => Thread(scripts[t], 0, None)), false)
  }

  predicate ValidRun(s: State, run: seq<Action>)
    decreases |run|
  {
    run == [] || (Enabled(s, run[0]) && ValidRun(Step(s, run[0]), run[1..]))
  }

  function Exec(s: State, run: seq<Action>): State
    requires ValidRun(s, run)
    decreases |run|
  {
    if run == [] then s else Exec(Step(s, run[0]), run[1..])
  }

  // ---------------------------------------------------------------- what can go wrong

  function Closes(ops: seq<Op>): nat {
    if ops == [] then 0 else Closes(ops[..|ops| - 1]) + if ops[|ops| - 1] == Close then 1 else 0
  }

  predicate WritesAfterClose(ops: seq<Op>) {
    exists i, j :: 0 <= i < j < |ops| && ops[i] == Close && ops[j] == Write
  }

  /** Thread b writes to a descriptor it has closed, and there is another client to get the number. */
  predicate Reckless(scripts: seq<seq<Op>>, b: nat, c: nat) {
    b < |scripts| && c < |scripts| && b != c && WritesAfterClose(scripts[b])
  }

  /** Thread a closes twice, b writes, and there is a third client to get b's number. */
  predicate Careless(scripts: seq<seq<Op>>, a: nat, b: nat, c: nat) {
    && a < |scripts| && b < |scripts| && c < |scripts| && a != b && b != c && a != c
    && 2 <= Closes(scripts[a]) && Write in scripts[b]
  }

  ghost predicate Unsafe(scripts: seq<seq<Op>>) {
    || (exists b: nat, c: nat :: Reckless(scripts, b, c))
    || (exists a: nat, b: nat, c: nat :: Careless(scripts, a, b, c))
  }

  // ---------------------------------------------------------------- nothing else can

  function Closed(th: Thread): nat {
    Closes(th.script[..if th.done <= |th.script| then th.done else |th.script|])
  }

  lemma {:induction false} ClosesGrow(ops: seq<Op>, k: nat)
    requires k <= |ops|
    ensures Closes(ops[..k]) <= Closes(ops)
    ensures 0 < Closes(ops[..k]) ==> exists i :: 0 <= i < k && ops[i] == Close
  {
    if k < |ops| {
      var init := ops[..|ops| - 1];
      ClosesGrow(init, k);
      assert init[..k] == ops[..k];
      assert forall i :: 0 <= i < k ==> init[i] == ops[i];
    } else {
      assert ops[..k] == ops;
      if k > 0 && ops[k - 1] != Close {
        var init := ops[..k - 1];
        ClosesGrow(init, k - 1);
        assert init[..k - 1] == init;
        assert forall i :: 0 <= i < k - 1 ==> init[i] == ops[i];
      }
    }
  }

  predicate ClosedTwice(s: State, a: nat) {
    a < |s.threads| && 2 <= Closed(s.threads[a])
  }

  /** A thread that has not closed has its client under its descriptor, unless another closed twice. */
  ghost predicate Secure(s: State, t: nat)
    requires t < |s.threads|
  {
    var th := s.threads[t];
    th.fd.Some? && Closed(th) == 0 ==>
      (th.fd.value in s.table && s.table[th.fd.value] == t) || exists a: nat :: a != t && ClosedTwice(s, a)
  }

  /** An open descriptor belongs to a thread that has not closed. */
  ghost predicate TableOk(s: State) {
    forall f :: f in s.table ==>
      s.table[f] < |s.threads| && s.threads[s.table[f]].fd == Some(f) && Closed(s.threads[s.table[f]]) == 0
  }

  ghost predicate Inv(s: State, scripts: seq<seq<Op>>) {
    && |s.threads| == |scripts|
    && (forall t :: 0 <= t < |scripts| ==> s.threads[t].script == scripts[t] && s.threads[t].done <= |scripts[t]|)
    && (forall t :: 0 <= t < |scripts| && s.threads[t].fd.None? ==> s.threads[t].done == 0)
    && TableOk(s)
    && (forall t :: 0 <= t < |scripts| ==> Secure(s, t))
    && (s.wrong ==> Unsafe(scripts))
  }

  /** One more operation of a script. */
  lemma ClosedAfter(th: Thread)
    requires th.done < |th.script|
    ensures Closed(th.(done := th.done + 1)) == Closed(th) + if th.script[th.done] == Close then 1 else 0
  {
    assert th.script[..th.done + 1][..th.done] == th.script[..th.done];
  }

  lemma AcceptKeepsInv(s: State, scripts: seq<seq<Op>>, t: nat, fd: nat)
    requires Inv(s, scripts) && Enabled(s, Accept(t, fd))
    ensures Inv(Step(s, Accept(t, fd)), scripts)
  {
    var s' := Step(s, Accept(t, fd));
    forall u | 0 <= u < |scripts|
      ensures Secure(s', u)
    {
      assert Secure(s, u);
      if a: nat :| a != u && ClosedTwice(s, a) {
        assert ClosedTwice(s', a);
      }
    }
  }

  /** A write that reaches another client shows that the scripts allow it. */
  lemma WrongWrite(s: State, scripts: seq<seq<Op>>, b: nat)
    requires Inv(s, scripts) && Enabled(s, Act(b)) && s.threads[b].script[s.threads[b].done] == Write
    requires var f := s.threads[b].fd.value; f in s.table && s.table[f] != b
    ensures Unsafe(scripts)
  {
    var th := s.threads[b];
    var c := s.table[th.fd.value];
    if 0 < Closed(th) {
      ClosesGrow(th.script, th.done);
      var i :| 0 <= i < th.done && th.script[i] == Close;
      assert WritesAfterClose(scripts[b]);
      assert Reckless(scripts, b, c);
    } else {
      assert Secure(s, b);
      var a: nat :| a != b && ClosedTwice(s, a);
      ClosesGrow(s.threads[a].script, s.threads[a].done);
      assert Careless(scripts, a, b, c);
    }
  }

  lemma WriteKeepsInv(s: State, scripts: seq<seq<Op>>, t: nat)
    requires Inv(s, scripts) && Enabled(s, Act(t)) && s.threads[t].script[s.threads[t].done] == Write
    ensures Inv(Step(s, Act(t)), scripts)
  {
    var s', f := Step(s, Act(t)), s.threads[t].fd.value;
    ClosedAfter(s.threads[t]);
    forall u | 0 <= u < |scripts|
      ensures Secure(s', u)
    {
      assert Secure(s, u);
      if a: nat :| a != u && ClosedTwice(s, a) {
        assert ClosedTwice(s', a);
      }
    }
    if f in s.table && s.table[f] != t {
      WrongWrite(s, scripts, t);
    }
  }

  /** If a close takes a descriptor from another thread, somebody has closed twice. */
  lemma CloseKeepsSecure(s: State, scripts: seq<seq<Op>>, t: nat, u: nat)
    requires Inv(s, scripts) && Enabled(s, Act(t)) && s.threads[t].script[s.threads[t].done] == Close
    requires u < |s.threads|
    ensures Secure(Step(s, Act(t)), u)
  {
    var s', f := Step(s, Act(t)), s.threads[t].fd.value;
    ClosedAfter(s.threads[t]);
    assert Secure(s, u) && Secure(s, t);
    if a: nat :| a != u && ClosedTwice(s, a) {
      assert ClosedTwice(s', a);
    } else if u != t && s.threads[u].fd == Some(f) && Closed(s.threads[u]) == 0 {
      assert 0 < Closed(s.threads[t]);
      assert ClosedTwice(s', t);
    }
  }

  lemma CloseKeepsInv(s: State, scripts: seq<seq<Op>>, t: nat)
    requires Inv(s, scripts) && Enabled(s, Act(t)) && s.threads[t].script[s.threads[t].done] == Close
    ensures Inv(Step(s, Act(t)), scripts)
  {
    ClosedAfter(s.threads[t]);
    forall u | 0 <= u < |scripts|
      ensures Secure(Step(s, Act(t)), u)
    {
      CloseKeepsSecure(s, scripts, t, u);
    }
  }

  lemma {:induction false} StepKeepsInv(s: State, scripts: seq<seq<Op>>, a: Action)
    requires Inv(s, scripts) && Enabled(s, a)
    ensures Inv(Step(s, a), scripts)
  {
    match a
    case Accept(t, fd) => AcceptKeepsInv(s, scripts, t, fd);
    case Act(t) =>
      if s.threads[t].script[s.threads[t].done] == Write {
        WriteKeepsInv(s, scripts, t);
      } else {
        CloseKeepsInv(s, scripts, t);
      }
  }

  lemma {:induction false} RunKeepsInv(s: State, scripts: seq<seq<Op>>, run: seq<Action>)
    requires Inv(s, scripts) && ValidRun(s, run)
    ensures Inv(Exec(s, run), scripts)
    decreases |run|
  {
    if run != [] {
      StepKeepsInv(s, scripts, run[0]);
      RunKeepsInv(Step(s, run[0]), scripts, run[1..]);
    }
  }

  // ---------------------------------------------------------------- and it does

  ghost predicate Leads(s0: State, run: seq<Action>, s: State) {
    ValidRun(s0, run) && Exec(s0, run) == s
  }

  lemma {:induction false} Then(s0: State, run: seq<Action>, s: State, a: Action)
    requires Leads(s0, run, s) && Enabled(s, a)
    ensures Leads(s0, run + [a], Step(s, a))
    decreases |run|
  {
    if run == [] {
      assert [a][1..] == [];
      assert run + [a] == [a];
    } else {
      assert (run + [a])[1..] == run[1..] + [a];
      Then(Step(s0, run[0]), run[1..], s, a);
    }
  }

  /** Thread t alone, on descriptor 0, after `k` operations of which the last closed it or a former one did. */
  function Solo(scripts: seq<seq<Op>>, t: nat, k: nat): State
    requires t < |scripts| && k <= |scripts[t]|
  {
    Init(scripts).(table := if Closes(scripts[t][..k]) == 0 then map[0 := t] else map[],
                   threads := Init(scripts).threads[t := Thread(scripts[t], k, Some(0))])
  }

  lemma {:induction false} SoloRun(scripts: seq<seq<Op>>, t: nat, k: nat) returns (run: seq<Action>)
    requires t < |scripts| && k <= |scripts[t]|
    ensures Leads(Init(scripts), run, Solo(scripts, t, k))
  {
    var s0 := Init(scripts);
    if k == 0 {
      Then(s0, [], s0, Accept(t, 0));
      run := [] + [Accept(t, 0)];
      assert Step(s0, Accept(t, 0)) == Solo(scripts, t, 0);
    } else {
      run := SoloRun(scripts, t, k - 1);
      var s := Solo(scripts, t, k - 1);
      Then(s0, run, s, Act(t));
      run := run + [Act(t)];
      ClosedAfter(s.threads[t]);
      assert Step(s, Act(t)) == Solo(scripts, t, k);
    }
  }

  ghost predicate Misdelivers(scripts: seq<seq<Op>>, run: seq<Action>) {
    ValidRun(Init(scripts), run) && Exec(Init(scripts), run).wrong
  }

  lemma {:induction false} SomeClose(ops: seq<Op>, k: nat, i: nat)
    requires i < k <= |ops| && ops[i] == Close
    ensures 0 < Closes(ops[..k])
  {
    if i < k - 1 {
      SomeClose(ops, k - 1, i);
      assert ops[..k][..k - 1] == ops[..k - 1];
    }
  }

  /** b closes its descriptor, c gets the number, b writes. */
  lemma {:induction false} RecklessRun(scripts: seq<seq<Op>>, b: nat, c: nat) returns (run: seq<Action>)
    requires Reckless(scripts, b, c)
    ensures Misdelivers(scripts, run)
  {
    var s0, ops := Init(scripts), scripts[b];
    var i, j :| 0 <= i < j < |ops| && ops[i] == Close && ops[j] == Write;
    run := SoloRun(scripts, b, j);
    SomeClose(ops, j, i);
    var s := Solo(scripts, b, j);
    Then(s0, run, s, Accept(c, 0));
    run, s := run + [Accept(c, 0)], Step(s, Accept(c, 0));
    Then(s0, run, s, Act(b));
    run := run + [Act(b)];
  }

  /** The position of a second close. */
  lemma {:induction false} SecondClose(ops: seq<Op>) returns (j: nat)
    requires 2 <= Closes(ops)
    ensures j < |ops| && ops[j] == Close && 0 < Closes(ops[..j])
  {
    var init := ops[..|ops| - 1];
    if ops[|ops| - 1] == Close {
      j := |ops| - 1;
    } else {
      j := SecondClose(init);
      assert init[..j] == ops[..j];
    }
  }

  /** a closes, b gets the number, a closes again, c gets the number, b writes. */
  lemma {:induction false} CarelessRun(scripts: seq<seq<Op>>, a: nat, b: nat, c: nat) returns (run: seq<Action>)
    requires Careless(scripts, a, b, c) && scripts[b][0] == Write
    ensures Misdelivers(scripts, run)
  {
    var s0 := Init(scripts);
    var j := SecondClose(scripts[a]);
    run := SoloRun(scripts, a, j);
    var s := Solo(scripts, a, j);
    Then(s0, run, s, Accept(b, 0));
    run, s := run + [Accept(b, 0)], Step(s, Accept(b, 0));
    Then(s0, run, s, Act(a));
    run, s := run + [Act(a)], Step(s, Act(a));
    Then(s0, run, s, Accept(c, 0));
    run, s := run + [Accept(c, 0)], Step(s, Accept(c, 0));
    Then(s0, run, s, Act(b));
    run := run + [Act(b)];
  }

  lemma WriterStartsOrIsReckless(scripts: seq<seq<Op>>, a: nat, b: nat, c: nat)
    requires Careless(scripts, a, b, c)
    ensures scripts[b][0] == Write || Reckless(scripts, b, c)
  {
    var j :| 0 <= j < |scripts[b]| && scripts[b][j] == Write;
    assert scripts[b][0] == Close ==> 0 < j;
  }

  lemma {:induction false} UnsafeRun(scripts: seq<seq<Op>>) returns (run: seq<Action>)
    requires Unsafe(scripts)
    ensures Misdelivers(scripts, run)
  {
    if a: nat, b: nat, c: nat :| Careless(scripts, a, b, c) {
      WriterStartsOrIsReckless(scripts, a, b, c);
      if scripts[b][0] == Write {
        run := CarelessRun(scripts, a, b, c);
      } else {
        run := RecklessRun(scripts, b, c);
      }
    } else {
      var b: nat, c: nat :| Reckless(scripts, b, c);
      run := RecklessRun(scripts, b, c);
    }
  }

  /** Some interleaving sends one client's bytes to another exactly when a thread writes after closing and
      there is another client, or one thread closes twice, another writes, and there is a third client. */
  lemma {:induction false} MisdeliveryIff(scripts: seq<seq<Op>>)
    ensures (exists run :: Misdelivers(scripts, run)) <==> Unsafe(scripts)
  {
    if Unsafe(scripts) {
      var run := UnsafeRun(scripts);
      assert Misdelivers(scripts, run);
    } else {
      forall run | ValidRun(Init(scripts), run)
        ensures !Misdelivers(scripts, run)
      {
        RunKeepsInv(Init(scripts), scripts, run);
      }
    }
  }

  // ---------------------------------------------------------------- the paths of the proxy

  function Scripts(paths: seq<Path>): (scripts: seq<seq<Op>>)
    ensures |scripts| == |paths| && forall t :: 0 <= t < |paths| ==> scripts[t] == Script(paths[t])
  {
    seq(|paths|, t requires 0 <= t < |paths| => Script(paths[t]))
  }

  /** The paths on which the descriptor is closed a second time. */
  predicate ClosesAgain(p: Path) {
    p.Hit? || p.ConnectFailed? || p.CopyFailed?
  }

  /** The paths on which something is written to the client. */
  predicate Sends(p: Path) {
    match p
    case Miss(n) => 0 < n
    case ConnectFailed => false
    case RequestFailed => false
    case _ => true
  }

  /** After a failed write of the copy its socket is closed, and chunks may follow. */
  predicate SendsLate(p: Path) {
    p.CopyFailed? && Sends(p.rest)
  }

  lemma {:induction false} ClosesJoin(a: seq<Op>, b: seq<Op>)
    ensures Closes(a + b) == Closes(a) + Closes(b)
  {
    if b == [] {
      assert a + b == a;
    } else {
      var c := b[..|b| - 1];
      assert (a + b)[..|a + b| - 1] == a + c;
      ClosesJoin(a, c);
    }
  }

  lemma {:induction false} NoCloses(n: nat)
    ensures Closes(Writes(n)) == 0
  {
    if n > 0 {
      assert Writes(n)[..n - 1] == Writes(n - 1);
      NoCloses(n - 1);
    }
  }

  lemma OneCloseAtEnd(n: nat)
    ensures Closes(Writes(n) + [Close]) == 1
  {
    var ops := Writes(n) + [Close];
    NoCloses(n);
    assert ops[..|ops| - 1] == Writes(n);
  }

  lemma WritesThenClose(n: nat, ops: seq<Op>)
    requires |ops| == n + 1 && ops[n] == Close && forall i :: 0 <= i < n ==> ops[i] == Write
    ensures !WritesAfterClose(ops) && (Write in ops <==> 0 < n)
  {
    if n > 0 {
      assert ops[0] == Write;
    }
  }

  lemma OnlyWrites(n: nat)
    ensures var ops := Writes(n) + [Close];
            Closes(ops) == 1 && !WritesAfterClose(ops) && (Write in ops <==> 0 < n)
  {
    OneCloseAtEnd(n);
    WritesThenClose(n, Writes(n) + [Close]);
  }

  lemma ShortScripts()
    ensures Closes([Write, Close]) == 1 && Closes([Close, Close]) == 2 && Closes([Write, Close, Close]) == 2
    ensures Closes([Close]) == 1
  {
    assert [Close][..0] == [] && Closes([]) == 0;
    assert [Write][..0] == [] && Closes([Write]) == 0;
    ClosesJoin([Write], [Close]);
    ClosesJoin([Close], [Close]);
    ClosesJoin([Write], [Close, Close]);
    assert [Write] + [Close] == [Write, Close] && [Close] + [Close] == [Close, Close];
    assert [Write] + [Close, Close] == [Write, Close, Close];
  }

  /** A failed write of the copy and the close that follows, before the rest of the path. */
  lemma AfterFailedCopy(tail: seq<Op>)
    ensures var ops := [Write, Close] + tail;
            Closes(ops) == 1 + Closes(tail) && Write in ops && (WritesAfterClose(ops) <==> Write in tail)
  {
    var ops := [Write, Close] + tail;
    ShortScripts();
    ClosesJoin([Write, Close], tail);
    assert ops[0] == Write && ops[1] == Close && forall j :: 0 <= j < |tail| ==> ops[j + 2] == tail[j];
    if Write in tail {
      var j :| 0 <= j < |tail| && tail[j] == Write;
      assert ops[j + 2] == Write;
    }
  }

  ghost predicate FactsOf(p: Path, ops: seq<Op>) {
    && 0 < Closes(ops) && (2 <= Closes(ops) <==> ClosesAgain(p))
    && (Write in ops <==> Sends(p)) && (WritesAfterClose(ops) <==> SendsLate(p))
  }

  lemma HitFacts()
    ensures FactsOf(Hit, [Write, Close, Close])
  {
    ShortScripts();
    assert [Write, Close, Close][0] == Write;
  }

  lemma FailureFacts()
    ensures FactsOf(ConnectFailed, [Close, Close]) && FactsOf(RequestFailed, [Close])
  {
    ShortScripts();
  }

  lemma MissFacts(n: nat)
    ensures FactsOf(Miss(n), Writes(n) + [Close])
  {
    OnlyWrites(n);
  }

  lemma OneMoreWrite(n: nat)
    ensures Writes(n) + [Write, Close] == Writes(n + 1) + [Close]
  {
  }

  lemma ChunkFacts(n: nat)
    ensures FactsOf(ChunkFailed(n), Writes(n) + [Write, Close])
  {
    OneMoreWrite(n);
    OnlyWrites(n + 1);
  }

  /** What the order of the calls on each path amounts to. */
  lemma {:induction false} ScriptFacts(p: Path)
    ensures FactsOf(p, Script(p))
  {
    match p
    case Hit => HitFacts();
    case Miss(n) => MissFacts(n);
    case ChunkFailed(n) => ChunkFacts(n);
    case CopyFailed(rest) =>
      ScriptFacts(rest);
      AfterFailedCopy(Script(rest));
    case _ => FailureFacts();
  }

  /** Client b's thread sends chunks after closing its socket, and there is a client c. */
  predicate LateSender(paths: seq<Path>, b: nat, c: nat) {
    b < |paths| && c < |paths| && b != c && SendsLate(paths[b])
  }

  /** Client a's thread closes twice, b's sends, and there is a third client. */
  predicate StrayNumber(paths: seq<Path>, a: nat, b: nat, c: nat) {
    && a < |paths| && b < |paths| && c < |paths| && a != b && b != c && a != c
    && ClosesAgain(paths[a]) && Sends(paths[b])
  }

  /** Some interleaving of the proxy's threads sends one client's bytes to another exactly when a failed
      write of a copy is followed by a chunk and there is another client, or one thread is on a path that
      closes twice, another sends, and there is a third client. */
  lemma {:induction false} ProxyMisdeliversIff(paths: seq<Path>)
    ensures (exists run :: Misdelivers(Scripts(paths), run)) <==>
            || (exists b: nat, c: nat :: LateSender(paths, b, c))
            || (exists a: nat, b: nat, c: nat :: StrayNumber(paths, a, b, c))
  {
    var scripts := Scripts(paths);
    forall b: nat, c: nat
      ensures LateSender(paths, b, c) <==> Reckless(scripts, b, c)
    {
      if b < |paths| {
        ScriptFacts(paths[b]);
      }
    }
    forall a: nat, b: nat, c: nat
      ensures StrayNumber(paths, a, b, c) <==> Careless(scripts, a, b, c)
    {
      if a < |paths| && b < |paths| {
        ScriptFacts(paths[a]);
        ScriptFacts(paths[b]);
      }
    }
    MisdeliveryIff(scripts);
  }

  /** One close, at the end. */
  predicate Tidy(p: Path) {
    p.Miss? || p.RequestFailed? || p.ChunkFailed?
  }

  /** Without hits and without failures on the way to the server, every byte goes to its own client. */
  lemma {:induction false} TidyPathsAreSafe(paths: seq<Path>, run: seq<Action>)
    requires forall t :: 0 <= t < |paths| ==> Tidy(paths[t])
    ensures !Misdelivers(Scripts(paths), run)
  {
    ProxyMisdeliversIff(paths);
  }

  /** One client served from the cache is enough: another client's response can go to a third. */
  lemma {:induction false} HitMisdelivers(paths: seq<Path>, a: nat, b: nat, c: nat) returns (run: seq<Action>)
    requires a < |paths| && b < |paths| && c < |paths| && a != b && b != c && a != c
    requires paths[a] == Hit && (paths[b].Hit? || (paths[b].Miss? && 0 < paths[b].chunks))
    ensures Misdelivers(Scripts(paths), run)
  {
    var scripts := Scripts(paths);
    ScriptFacts(paths[a]);
    ScriptFacts(paths[b]);
    assert Careless(scripts, a, b, c);
    run := UnsafeRun(scripts);
  }
}
