/**
 The proxy of semestr2/Task3/src/proxy.c with one thread per client.  `cache_mutex` makes a lookup one
 action and a push one action; the relay between them is not protected.  A write may take fewer bytes
 than it was given, or fail.  `fault` is set, and the run ends, where a request makes the thread's behaviour
 undefined: it does not fit the local buffer, its key is that of the dummy head, its host name cannot be
 cut out or resolved, or its response does not fit the record.  Each thread has its own request and its
 own descriptor, and allocates at most one record, which is therefore named by its thread.
 */
module ProxyThreads {
  import opened Bytes
  import opened CacheSpec
  import opened ProxyHost
  import opened Wrappers

  datatype Pc =
    | Finding     // find_in_cache, under the mutex
    | Sending     // a hit: write the copy to the client
    | Relaying    // a miss: read from the server, write to the client, add_response; then push_record
    | Answered
    | Gone        // returned after a failed connection or write, without freeing its record

  /** `resolves` is whether getaddrinfo knows the host (if not, the program frees an unset pointer), `chunks`
      what the server will send; `next` of them have been read and are `stored` in the record.  `retried`
      says that writing a copy failed: the socket is closed and the thread goes on to the server.  The rest
      is history: whose server's response the client is given, the positions of the lookup and the push in
      the log, and how many bytes each write took. */
  datatype Client = Client(text: seq<byte>, resolves: bool, chunks: seq<seq<byte>>, pc: Pc, next: nat,
                           stored: seq<byte>, copy: seq<byte>, sent: seq<byte>, retried: bool,
                           source: nat, asked: nat, pushed: nat, taken: seq<nat>)

  /** `list` are the records after the dummy head, whose request field is `unset`; `freed` records every
      call of free on a record, `log` the lookups and pushes in the order of the critical sections. */
  datatype State = State(unset: nat, capacity: nat, list: seq<nat>, freed: seq<nat>, clients: seq<Client>,
                         log: seq<Op>, fault: bool)

  /** `n` is what write returns; `Fail` is a write, or the connection to the server, that fails. */
  datatype Action = Lookup(t: nat) | Send(t: nat, n: nat) | Relay(t: nat, n: nat) | Publish(t: nat) | Fail(t: nat)

  function Key(c: Client): nat {
    HashOf(c.text)
  }

  function Response(c: Client): seq<byte> {
    Flatten(c.chunks)
  }

  predicate CanConnect(c: Client) {
    HasHost(c.text) && c.resolves
  }

  predicate At(s: State, t: nat, pc: Pc) {
    t < |s.clients| && s.clients[t].pc == pc
  }

  predicate Enabled(s: State, a: Action) {
    && !s.fault && a.t < |s.clients|
    && var c := s.clients[a.t];
       match a
       case Lookup(_) => c.pc == Finding
       case Send(_, n) => c.pc == Sending && n <= |c.copy|
       case Relay(_, n) => c.pc == Relaying && !c.retried && c.next < |c.chunks| && n <= |c.chunks[c.next]|
       case Publish(_) => c.pc == Relaying && c.next == |c.chunks|
       case Fail(_) => c.pc == Sending || (c.pc == Relaying && (c.next == 0 || c.next < |c.chunks|))
  }

  /** The walk over the list: the first record with the key. */
  function Walk(list: seq<nat>, clients: seq<Client>, key: nat): (found: Option<nat>)
    ensures found.Some? ==> found.value in list && found.value < |clients| && Key(clients[found.value]) == key
    ensures found.None? ==> forall u :: u in list && u < |clients| ==> Key(clients[u]) != key
  {
    if list == [] then None
    else if list[0] < |clients| && Key(clients[list[0]]) == key then Some(list[0])
    else Walk(list[1..], clients, key)
  }

  /** What the lookup of `t` and, on a miss, the way to the server cannot stand. */
  predicate Undefined(s: State, t: nat)
    requires t < |s.clients|
  {
    var c := s.clients[t];
    || MAX_BUFFER_SIZE <= |c.text| || Key(c) == s.unset
    || (Walk(s.list, s.clients, Key(c)).None? && !CanConnect(c))
  }

  function AfterLookup(s: State, t: nat): Client
    requires t < |s.clients|
  {
    var c := s.clients[t];
    match Walk(s.list, s.clients, Key(c))
    case Some(u) => c.(pc := Sending, copy := Replay(s.clients[u].stored), source := u, asked := |s.log|)
    case None => c.(pc := Relaying, source := t, asked := |s.log|)
  }

  function AfterRelay(c: Client, n: nat): Client
    requires c.next < |c.chunks| && n <= |c.chunks[c.next]|
  {
    var chunk := c.chunks[c.next];
    c.(next := c.next + 1, stored := c.stored + chunk, sent := c.sent + chunk[..n], taken := c.taken + [n])
  }

  /** A failed write of the copy is treated like a miss; a failed write of a chunk ends the thread. */
  function AfterFail(c: Client, t: nat): Client {
    if c.pc == Sending then c.(pc := Relaying, source := t, retried := true) else c.(pc := Gone)
  }

  function Step(s: State, a: Action): (s': State)
    requires Enabled(s, a)
    ensures |s'.clients| == |s.clients|
  {
    var t, c := a.t, s.clients[a.t];
    match a
    case Lookup(_) =>
      if Undefined(s, t) then s.(fault := true)
      else s.(clients := s.clients[t := AfterLookup(s, t)], log := s.log + [Find(c.text)])
    case Send(_, n) =>
      s.(clients := s.clients[t := c.(pc := Answered, sent := c.copy[..n], taken := [n])])
    case Relay(_, n) =>
      if s.capacity < |c.stored| + |c.chunks[c.next]| then s.(fault := true)
      else s.(clients := s.clients[t := AfterRelay(c, n)])
    case Publish(_) =>
      var s' := s.(clients := s.clients[t := c.(pc := Answered, pushed := |s.log|)],
                   log := s.log + [Push(c.text, c.stored)]);
      if Walk(s.list, s.clients, Key(c)).Some? then s'.(freed := s.freed + [t]) else s'.(list := s.list + [t])
    case Fail(_) =>
      if c.pc == Sending && !CanConnect(c) then s.(fault := true) else s.(clients := s.clients[t := AfterFail(c, t)])
  }

  datatype Request = Request(text: seq<byte>, resolves: bool, chunks: seq<seq<byte>>)

  function Init(unset: nat, capacity: nat, rs: seq<Request>): State {
    State(unset, capacity, [], [],
          seq(|rs|, t requires 0 <= t < |rs| =>
            Client(rs[t].text, rs[t].resolves, rs[t].chunks, Finding, 0, [], [], [], false, t, 0, 0, [])), [], false)
  }

  predicate ValidRun(s: State, run: seq<Action>)
    decreases |run|
  {
    run == [] || (Enabled(s, run[0]) && ValidRun(Step(s, run[0]), run[1..]))
  }

  function Exec(s: State, run: seq<Action>): (e: State)
    requires ValidRun(s, run)
    ensures |e.clients| == |s.clients|
    decreases |run|
  {
    if run == [] then s else Exec(Step(s, run[0]), run[1..])
  }

  // ---------------------------------------------------------------- the inductive invariant

  /** The thread was told to push and did. */
  predicate HasPushed(c: Client, t: nat) {
    c.pc == Answered && c.source == t
  }

  predicate RecordOk(c: Client, capacity: nat) {
    c.next <= |c.chunks| && c.stored == Flatten(c.chunks[..c.next]) && |c.stored| <= capacity
  }

  /** The lookup found the record of `c.source`, the first pushed under the key before the lookup. */
  predicate FoundFirst(s: State, c: Client) {
    && c.source in s.list && c.source < |s.clients|
    && c.asked <= |s.log| && IsFirstPush(s.log[..c.asked], Key(c), s.clients[c.source].pushed)
  }

  predicate NobodyPushed(log: seq<Op>, asked: nat, key: nat) {
    asked <= |log| && forall i :: 0 <= i < asked ==> !Pushes(log[i], key)
  }

  /** What the client was sent: the accepted part of each chunk, or of the copy. */
  predicate SentOk(s: State, t: nat, c: Client) {
    if c.source == t then
      Takes(c.chunks, c.taken) && |c.taken| == c.next && c.sent == Accepted(c.chunks, c.taken)
    else if c.pc == Answered then
      && c.source < |s.clients| && |c.taken| == 1
      && var copy := Replay(s.clients[c.source].stored);
         c.taken[0] <= |copy| && c.sent == copy[..c.taken[0]]
    else
      c.taken == [] && c.sent == []
  }

  /** A thread that has been to the server could go there, and had nothing cached unless it was retried. */
  predicate WentToServer(s: State, c: Client) {
    CanConnect(c) && (!c.retried ==> NobodyPushed(s.log, c.asked, Key(c)))
  }

  predicate ClientOk(s: State, t: nat, c: Client) {
    && RecordOk(c, s.capacity) && SentOk(s, t, c)
    && (c.pc == Finding ==> c.source == t)
    && (c.pc != Finding ==> c.asked < |s.log| && s.log[c.asked] == Find(c.text) && Key(c) != s.unset)
    && (c.pc != Finding ==> |c.text| < MAX_BUFFER_SIZE)
    && (c.pc == Finding || c.pc == Sending ==> c.next == 0 && !c.retried) && (c.retried ==> c.next == 0)
    && (c.pc == Sending || c.source != t ==> c.source != t && !c.retried && FoundFirst(s, c))
    && (c.pc == Sending ==> c.source < |s.clients| && c.copy == Replay(s.clients[c.source].stored))
    && (c.pc == Relaying || c.pc == Gone ==> c.source == t)
    && (c.pc != Finding && c.source == t ==> WentToServer(s, c))
    && (HasPushed(c, t) ==> c.next == |c.chunks|)
  }

  /** The record of client `u` in the list is the first pushed under its key. */
  predicate Listed(s: State, u: nat) {
    && u < |s.clients| && HasPushed(s.clients[u], u)
    && var c := s.clients[u];
       IsFirstPush(s.log, Key(c), c.pushed) && s.log[c.pushed] == Push(c.text, c.stored)
  }

  ghost predicate NoDuplicates(xs: seq<nat>) {
    forall i, j :: 0 <= i < j < |xs| ==> xs[i] != xs[j]
  }

  function Entries(list: seq<nat>, clients: seq<Client>): (es: seq<Entry>)
    ensures |es| == |list|
  {
    seq(|list|, i requires 0 <= i < |list| =>
      if list[i] < |clients| then Entry(Key(clients[list[i]]), clients[list[i]].stored) else Entry(0, []))
  }

  ghost predicate ListOk(s: State) {
    && (forall i :: 0 <= i < |s.list| ==> Listed(s, s.list[i]))
    && DistinctKeys(Entries(s.list, s.clients))
    && TableOf(Entries(s.list, s.clients)) == Run(map[], s.log)
  }

  ghost predicate FreedOk(s: State) {
    && NoDuplicates(s.freed)
    && (forall u :: u in s.freed ==> u !in s.list && u < |s.clients| && HasPushed(s.clients[u], u))
    && (forall t :: 0 <= t < |s.clients| && HasPushed(s.clients[t], t) ==> t in s.list || t in s.freed)
  }

  ghost predicate Inv(s: State) {
    && (forall t :: 0 <= t < |s.clients| ==> ClientOk(s, t, s.clients[t]))
    && ListOk(s)
    && FreedOk(s)
  }

  lemma {:induction false} InitEstablishesInv(unset: nat, capacity: nat, rs: seq<Request>)
    ensures Inv(Init(unset, capacity, rs))
  {
  }

  // ---------------------------------------------------------------- what each action keeps

  lemma FirstPushStays(log: seq<Op>, op: Op, key: nat, i: nat)
    requires IsFirstPush(log, key, i)
    ensures IsFirstPush(log + [op], key, i)
  {
  }

  /** The response a client is given by another was pushed by it. */
  lemma SourceHasPushed(s: State, u: nat)
    requires ListOk(s) && u < |s.clients| && ClientOk(s, u, s.clients[u]) && s.clients[u].source != u
    ensures var v := s.clients[u].source; v < |s.clients| && HasPushed(s.clients[v], v)
  {
    var k :| 0 <= k < |s.list| && s.list[k] == s.clients[u].source;
    assert Listed(s, s.list[k]);
  }

  /** A client other than `t`, and not served by it, sees no difference when `t` changes or the log grows. */
  lemma OtherKept(s: State, s': State, t: nat, u: nat)
    requires t < |s.clients| == |s'.clients| && u < |s.clients| && u != t && ClientOk(s, u, s.clients[u])
    requires s.clients[u].source != t && s'.capacity == s.capacity && s'.unset == s.unset
    requires s'.clients == s.clients[t := s'.clients[t]] && s.log <= s'.log && s.list <= s'.list
    ensures ClientOk(s', u, s'.clients[u])
  {
    var c := s.clients[u];
    assert c.asked <= |s.log| ==> s'.log[..c.asked] == s.log[..c.asked];
    if c.source != u {
      var k :| 0 <= k < |s.list| && s.list[k] == c.source;
      assert s'.list[k] == c.source;
    }
  }

  lemma OthersKept(s: State, s': State, t: nat)
    requires Inv(s) && t < |s.clients| == |s'.clients| && !HasPushed(s.clients[t], t)
    requires s'.capacity == s.capacity && s'.unset == s.unset && s'.clients == s.clients[t := s'.clients[t]]
    requires s.log <= s'.log && s.list <= s'.list
    ensures forall u :: 0 <= u < |s.clients| && u != t ==> ClientOk(s', u, s'.clients[u])
  {
    forall u | 0 <= u < |s.clients| && u != t
      ensures ClientOk(s', u, s'.clients[u])
    {
      assert ClientOk(s, u, s.clients[u]);
      if s.clients[u].source != u {
        SourceHasPushed(s, u);
      }
      OtherKept(s, s', t, u);
    }
  }

  lemma EntriesKept(list: seq<nat>, clients: seq<Client>, t: nat, c: Client)
    requires t < |clients| && t !in list
    ensures Entries(list, clients[t := c]) == Entries(list, clients)
  {
  }

  lemma EntriesGrow(list: seq<nat>, clients: seq<Client>, t: nat)
    requires t < |clients|
    ensures Entries(list + [t], clients) == Entries(list, clients) + [Entry(Key(clients[t]), clients[t].stored)]
  {
  }

  lemma LocalKeepsList(s: State, t: nat, c: Client)
    requires ListOk(s) && t < |s.clients| && !HasPushed(s.clients[t], t)
    ensures ListOk(s.(clients := s.clients[t := c])) && t !in s.list
  {
    var s' := s.(clients := s.clients[t := c]);
    forall i | 0 <= i < |s.list|
      ensures Listed(s', s'.list[i]) && s.list[i] != t
    {
      assert Listed(s, s.list[i]);
    }
    EntriesKept(s.list, s.clients, t, c);
  }

  lemma LocalKeepsFreed(s: State, t: nat, c: Client)
    requires FreedOk(s) && t < |s.clients| && !HasPushed(s.clients[t], t) && !HasPushed(c, t)
    ensures FreedOk(s.(clients := s.clients[t := c]))
  {
  }

  /** A step of a thread that pushes nothing. */
  lemma LocalKeepsInv(s: State, t: nat, c: Client)
    requires Inv(s) && t < |s.clients| && !HasPushed(s.clients[t], t) && !HasPushed(c, t)
    requires var s' := s.(clients := s.clients[t := c]); ClientOk(s', t, c)
    ensures Inv(s.(clients := s.clients[t := c]))
  {
    LocalKeepsList(s, t, c);
    LocalKeepsFreed(s, t, c);
    OthersKept(s, s.(clients := s.clients[t := c]), t);
  }

  lemma LogKeepsClient(s: State, op: Op, t: nat)
    requires t < |s.clients| && ClientOk(s, t, s.clients[t])
    ensures ClientOk(s.(log := s.log + [op]), t, s.clients[t])
  {
    var c, s' := s.clients[t], s.(log := s.log + [op]);
    assert c.asked <= |s.log| ==> s'.log[..c.asked] == s.log[..c.asked];
  }

  lemma LogKeepsList(s: State, op: Op)
    requires ListOk(s) && Apply(Run(map[], s.log), op) == Run(map[], s.log)
    ensures ListOk(s.(log := s.log + [op]))
  {
    var s' := s.(log := s.log + [op]);
    forall i | 0 <= i < |s.list|
      ensures Listed(s', s'.list[i])
    {
      var c := s.clients[s.list[i]];
      assert Listed(s, s.list[i]);
      FirstPushStays(s.log, op, Key(c), c.pushed);
    }
    OneMoreOp(map[], s.log, op);
  }

  /** One more entry in the log that does not change the table. */
  lemma LogKeepsInv(s: State, op: Op)
    requires Inv(s) && Apply(Run(map[], s.log), op) == Run(map[], s.log)
    ensures Inv(s.(log := s.log + [op]))
  {
    LogKeepsList(s, op);
    forall t | 0 <= t < |s.clients|
      ensures ClientOk(s.(log := s.log + [op]), t, s.clients[t])
    {
      LogKeepsClient(s, op, t);
    }
  }

  lemma {:induction false} FirstPushExists(log: seq<Op>, key: nat, i: nat)
    requires i < |log| && Pushes(log[i], key)
    ensures exists j: nat :: IsFirstPush(log, key, j)
    decreases i
  {
    if j :| 0 <= j < i && Pushes(log[j], key) {
      FirstPushExists(log, key, j);
    } else {
      assert IsFirstPush(log, key, i);
    }
  }

  /** What a walk finds is what the log says was pushed first. */
  lemma WalkFindsFirst(s: State, key: nat)
    requires Inv(s)
    ensures match Walk(s.list, s.clients, key)
            case Some(u) => u < |s.clients| && Listed(s, u) && Key(s.clients[u]) == key && key in Run(map[], s.log)
            case None => NobodyPushed(s.log, |s.log|, key) && key !in Run(map[], s.log)
  {
    var es := Entries(s.list, s.clients);
    TableHas(es, key);
    FirstPushWins(map[], s.log, key);
    match Walk(s.list, s.clients, key)
    case Some(u) =>
      var k :| 0 <= k < |s.list| && s.list[k] == u;
      assert Listed(s, s.list[k]) && es[k].key == key;
    case None =>
      forall k | 0 <= k < |es|
        ensures es[k].key != key
      {
        assert Listed(s, s.list[k]);
      }
      if i :| 0 <= i < |s.log| && Pushes(s.log[i], key) {
        FirstPushExists(s.log, key, i);
      }
  }

  /** The client after its lookup, told by what the walk found. */
  lemma LookupKeepsClient(s: State, t: nat)
    requires Enabled(s, Lookup(t)) && !Undefined(s, t) && ClientOk(s, t, s.clients[t])
    requires match Walk(s.list, s.clients, Key(s.clients[t]))
             case Some(u) => u < |s.clients| && u != t && Listed(s, u) && Key(s.clients[u]) == Key(s.clients[t])
             case None => NobodyPushed(s.log, |s.log|, Key(s.clients[t]))
    ensures var s' := Step(s, Lookup(t)); ClientOk(s', t, s'.clients[t])
  {
    var s' := Step(s, Lookup(t));
    assert s'.log[..|s.log|] == s.log;
  }

  lemma LookupKeepsInv(s: State, t: nat)
    requires Inv(s) && Enabled(s, Lookup(t)) && !Undefined(s, t)
    ensures Inv(Step(s, Lookup(t)))
  {
    var c := s.clients[t];
    assert ClientOk(s, t, c);
    WalkFindsFirst(s, Key(c));
    LookupKeepsClient(s, t);
    LogKeepsInv(s, Find(c.text));
    LocalKeepsInv(s.(log := s.log + [Find(c.text)]), t, AfterLookup(s, t));
  }

  lemma RelayKeepsClient(s: State, t: nat, n: nat)
    requires Enabled(s, Relay(t, n)) && ClientOk(s, t, s.clients[t])
    requires |s.clients[t].stored| + |s.clients[t].chunks[s.clients[t].next]| <= s.capacity
    ensures var c := AfterRelay(s.clients[t], n); ClientOk(s.(clients := s.clients[t := c]), t, c)
  {
    var c := s.clients[t];
    FlattenNext(c.chunks, c.next);
    assert (c.taken + [n])[..c.next] == c.taken;
  }

  lemma RelayKeepsInv(s: State, t: nat, n: nat)
    requires Inv(s) && Enabled(s, Relay(t, n))
    ensures Inv(Step(s, Relay(t, n)))
  {
    var c := s.clients[t];
    if |c.stored| + |c.chunks[c.next]| <= s.capacity {
      RelayKeepsClient(s, t, n);
      LocalKeepsInv(s, t, AfterRelay(c, n));
    }
  }

  lemma SendKeepsClient(s: State, t: nat, n: nat)
    requires Enabled(s, Send(t, n)) && ClientOk(s, t, s.clients[t]) && s.clients[t].source != t
    ensures var s' := Step(s, Send(t, n)); ClientOk(s', t, s'.clients[t])
  {
  }

  lemma SendKeepsInv(s: State, t: nat, n: nat)
    requires Inv(s) && Enabled(s, Send(t, n))
    ensures Inv(Step(s, Send(t, n)))
  {
    assert ClientOk(s, t, s.clients[t]);
    SendKeepsClient(s, t, n);
    LocalKeepsInv(s, t, Step(s, Send(t, n)).clients[t]);
  }

  lemma FailKeepsClient(s: State, t: nat)
    requires Enabled(s, Fail(t)) && ClientOk(s, t, s.clients[t])
    requires s.clients[t].pc == Sending ==> CanConnect(s.clients[t])
    ensures var c := AfterFail(s.clients[t], t); ClientOk(s.(clients := s.clients[t := c]), t, c)
  {
  }

  lemma FailKeepsInv(s: State, t: nat)
    requires Inv(s) && Enabled(s, Fail(t))
    ensures Inv(Step(s, Fail(t)))
  {
    var c := s.clients[t];
    if c.pc != Sending || CanConnect(c) {
      FailKeepsClient(s, t);
      LocalKeepsInv(s, t, AfterFail(c, t));
    }
  }

  lemma PublishKeepsClient(s: State, t: nat)
    requires Enabled(s, Publish(t)) && ClientOk(s, t, s.clients[t])
    ensures var s' := Step(s, Publish(t)); ClientOk(s', t, s'.clients[t])
  {
  }

  lemma PublishKeepsListed(s: State, t: nat, u: nat)
    requires Enabled(s, Publish(t)) && u != t && Listed(s, u)
    ensures Listed(Step(s, Publish(t)), u)
  {
    var c := s.clients[t];
    FirstPushStays(s.log, Push(c.text, c.stored), Key(s.clients[u]), s.clients[u].pushed);
  }

  lemma NewRecordListed(s: State, t: nat)
    requires Enabled(s, Publish(t)) && s.clients[t].source == t && NobodyPushed(s.log, |s.log|, Key(s.clients[t]))
    ensures Listed(Step(s, Publish(t)), t)
  {
  }

  lemma NewEntry(es: seq<Entry>, log: seq<Op>, text: seq<byte>, response: seq<byte>)
    requires DistinctKeys(es) && TableOf(es) == Run(map[], log) && HashOf(text) !in Run(map[], log)
    ensures var es' := es + [Entry(HashOf(text), response)];
            DistinctKeys(es') && TableOf(es') == Run(map[], log + [Push(text, response)])
  {
    OneMoreOp(map[], log, Push(text, response));
    OneMoreEntry(es, Entry(HashOf(text), response));
  }

  lemma DuplicateKeepsList(s: State, t: nat)
    requires ListOk(s) && Enabled(s, Publish(t)) && t !in s.list
    requires Walk(s.list, s.clients, Key(s.clients[t])).Some? && Key(s.clients[t]) in Run(map[], s.log)
    ensures ListOk(Step(s, Publish(t)))
  {
    var s', c := Step(s, Publish(t)), s.clients[t];
    OneMoreOp(map[], s.log, Push(c.text, c.stored));
    EntriesKept(s.list, s.clients, t, s'.clients[t]);
    forall i | 0 <= i < |s'.list|
      ensures Listed(s', s'.list[i])
    {
      PublishKeepsListed(s, t, s.list[i]);
    }
  }

  lemma NewRecordTable(s: State, t: nat)
    requires ListOk(s) && Enabled(s, Publish(t)) && t !in s.list
    requires Walk(s.list, s.clients, Key(s.clients[t])).None? && Key(s.clients[t]) !in Run(map[], s.log)
    ensures var s' := Step(s, Publish(t));
            && DistinctKeys(Entries(s'.list, s'.clients))
            && TableOf(Entries(s'.list, s'.clients)) == Run(map[], s'.log)
  {
    var s', c := Step(s, Publish(t)), s.clients[t];
    NewEntry(Entries(s.list, s.clients), s.log, c.text, c.stored);
    EntriesKept(s.list, s.clients, t, s'.clients[t]);
    EntriesGrow(s.list, s'.clients, t);
  }

  lemma NewRecordKeepsListed(s: State, t: nat)
    requires forall i :: 0 <= i < |s.list| ==> Listed(s, s.list[i])
    requires Enabled(s, Publish(t)) && t !in s.list && s.clients[t].source == t
    requires Walk(s.list, s.clients, Key(s.clients[t])).None? && NobodyPushed(s.log, |s.log|, Key(s.clients[t]))
    ensures var s' := Step(s, Publish(t)); forall i :: 0 <= i < |s'.list| ==> Listed(s', s'.list[i])
  {
    var s' := Step(s, Publish(t));
    forall i | 0 <= i < |s'.list|
      ensures Listed(s', s'.list[i])
    {
      if i < |s.list| {
        PublishKeepsListed(s, t, s.list[i]);
      } else {
        NewRecordListed(s, t);
      }
    }
  }

  lemma NewRecordKeepsList(s: State, t: nat)
    requires ListOk(s) && Enabled(s, Publish(t)) && t !in s.list && s.clients[t].source == t
    requires Walk(s.list, s.clients, Key(s.clients[t])).None? && Key(s.clients[t]) !in Run(map[], s.log)
    requires NobodyPushed(s.log, |s.log|, Key(s.clients[t]))
    ensures ListOk(Step(s, Publish(t)))
  {
    NewRecordTable(s, t);
    NewRecordKeepsListed(s, t);
  }

  lemma PublishKeepsFreed(s: State, t: nat)
    requires FreedOk(s) && Enabled(s, Publish(t)) && t !in s.list && s.clients[t].source == t
    ensures FreedOk(Step(s, Publish(t)))
  {
    assert t !in s.freed;
  }

  lemma PublishKeepsList(s: State, t: nat)
    requires Inv(s) && Enabled(s, Publish(t)) && s.clients[t].source == t && t !in s.list
    ensures ListOk(Step(s, Publish(t)))
  {
    WalkFindsFirst(s, Key(s.clients[t]));
    if Walk(s.list, s.clients, Key(s.clients[t])).Some? {
      DuplicateKeepsList(s, t);
    } else {
      NewRecordKeepsList(s, t);
    }
  }

  lemma PublishKeepsInv(s: State, t: nat)
    requires Inv(s) && Enabled(s, Publish(t))
    ensures Inv(Step(s, Publish(t)))
  {
    assert ClientOk(s, t, s.clients[t]);
    LocalKeepsList(s, t, s.clients[t]);
    PublishKeepsClient(s, t);
    OthersKept(s, Step(s, Publish(t)), t);
    PublishKeepsList(s, t);
    PublishKeepsFreed(s, t);
  }

  lemma {:induction false} StepKeepsInv(s: State, a: Action)
    requires Inv(s) && Enabled(s, a)
    ensures Inv(Step(s, a))
  {
    match a
    case Lookup(t) =>
      if !Undefined(s, t) {
        LookupKeepsInv(s, t);
      }
    case Send(t, n) => SendKeepsInv(s, t, n);
    case Relay(t, n) => RelayKeepsInv(s, t, n);
    case Publish(t) => PublishKeepsInv(s, t);
    case Fail(t) => FailKeepsInv(s, t);
  }

  lemma {:induction false} RunKeepsInv(s: State, run: seq<Action>)
    requires Inv(s) && ValidRun(s, run)
    ensures Inv(Exec(s, run))
    decreases |run|
  {
    if run != [] {
      StepKeepsInv(s, run[0]);
      RunKeepsInv(Step(s, run[0]), run[1..]);
    }
  }
}
