/** What the clients of the proxy get, over all interleavings of their threads. */
module ProxyAnswers {
  import opened Bytes
  import opened CacheSpec
  import opened ProxyHost
  import opened ProxyThreads
  import opened Sums

  function RequestOf(c: Client): Request {
    Request(c.text, c.resolves, c.chunks)
  }

  ghost predicate SameRequests(s: State, rs: seq<Request>) {
    && |s.clients| == |rs|
    && forall t :: 0 <= t < |rs| ==> RequestOf(s.clients[t]) == rs[t]
  }

  lemma StepKeepsRequests(s: State, rs: seq<Request>, a: Action)
    requires SameRequests(s, rs) && Enabled(s, a)
    ensures var s' := Step(s, a); SameRequests(s', rs) && s'.unset == s.unset && s'.capacity == s.capacity
  {
  }

  lemma {:induction false} RunKeepsRequests(s: State, rs: seq<Request>, run: seq<Action>)
    requires SameRequests(s, rs) && ValidRun(s, run)
    ensures var e := Exec(s, run); SameRequests(e, rs) && e.unset == s.unset && e.capacity == s.capacity
    decreases |run|
  {
    if run != [] {
      StepKeepsRequests(s, rs, run[0]);
      RunKeepsRequests(Step(s, run[0]), rs, run[1..]);
    }
  }

  ghost predicate Reaches(unset: nat, capacity: nat, rs: seq<Request>, run: seq<Action>, e: State) {
    ValidRun(Init(unset, capacity, rs), run) && Exec(Init(unset, capacity, rs), run) == e
  }

  lemma {:induction false} ReachableOk(unset: nat, capacity: nat, rs: seq<Request>, run: seq<Action>, e: State)
    requires Reaches(unset, capacity, rs, run, e)
    ensures Inv(e) && SameRequests(e, rs) && e.unset == unset && e.capacity == capacity
  {
    InitEstablishesInv(unset, capacity, rs);
    RunKeepsInv(Init(unset, capacity, rs), run);
    RunKeepsRequests(Init(unset, capacity, rs), rs, run);
  }

  /** The list is at every moment the first-push-wins map of the lookups and pushes so far. */
  lemma {:induction false} ListIsFirstPushWinsMap(unset: nat, capacity: nat, rs: seq<Request>, run: seq<Action>,
                                                  e: State)
    requires Reaches(unset, capacity, rs, run, e)
    ensures DistinctKeys(Entries(e.list, e.clients)) && TableOf(Entries(e.list, e.clients)) == Run(map[], e.log)
    ensures forall key: nat, i: nat :: IsFirstPush(e.log, key, i) ==>
              key in Run(map[], e.log) && Run(map[], e.log)[key] == e.log[i].response
    ensures forall key: nat :: key in Run(map[], e.log) ==> exists i: nat :: IsFirstPush(e.log, key, i)
  {
    ReachableOk(unset, capacity, rs, run, e);
    forall key: nat
      ensures forall i: nat :: IsFirstPush(e.log, key, i) ==>
                key in Run(map[], e.log) && Run(map[], e.log)[key] == e.log[i].response
      ensures key in Run(map[], e.log) ==> exists i: nat :: IsFirstPush(e.log, key, i)
    {
      FirstPushWins(map[], e.log, key);
    }
  }

  /** What is written to a client: the chunks of its own server's response, or in one piece a replay of
      the response of the client its lookup found. */
  function Pieces(rs: seq<Request>, t: nat, source: nat): seq<seq<byte>>
    requires t < |rs| && source < |rs|
  {
    if source == t then rs[t].chunks else [Replay(Flatten(rs[source].chunks))]
  }

  /** Every write to the client took all it was given. */
  predicate Whole(rs: seq<Request>, t: nat, c: Client) {
    && t < |rs| && c.source < |rs| && |c.taken| == |Pieces(rs, t, c.source)|
    && forall i :: 0 <= i < |c.taken| ==> c.taken[i] == |Pieces(rs, t, c.source)[i]|
  }

  lemma AcceptedWhole(chunks: seq<seq<byte>>, taken: seq<nat>)
    requires Takes(chunks, taken) && |taken| == |chunks|
    ensures (forall i :: 0 <= i < |taken| ==> taken[i] == |chunks[i]|) ==> Accepted(chunks, taken) == Flatten(chunks)
  {
    if forall i :: 0 <= i < |taken| ==> taken[i] == |chunks[i]| {
      FullWritesDeliverAll(chunks, taken);
      assert chunks[..|taken|] == chunks;
    }
  }

  lemma AcceptedOne(copy: seq<byte>, taken: seq<nat>)
    requires |taken| == 1 && taken[0] <= |copy|
    ensures Takes([copy], taken) && Accepted([copy], taken) == copy[..taken[0]]
  {
    assert taken[..0] == [];
  }

  /** A client's answer, in terms of what was to be written to it. */
  predicate Delivered(pieces: seq<seq<byte>>, c: Client) {
    Takes(pieces, c.taken) && |c.taken| == |pieces| && c.sent == Accepted(pieces, c.taken)
  }

  lemma ServerAnswer(e: State, t: nat, c: Client)
    requires ClientOk(e, t, c) && c.pc == Answered && c.source == t
    ensures Delivered(c.chunks, c) && c.asked <= |e.log|
    ensures !c.retried ==> NobodyPushed(e.log, c.asked, Key(c))
    ensures c.retried ==> c.chunks == [] && c.sent == []
  {
  }

  lemma {:induction false} CachedAnswer(e: State, t: nat)
    requires Inv(e) && t < |e.clients| && e.clients[t].pc == Answered && e.clients[t].source != t
    ensures var c := e.clients[t];
            && c.source < |e.clients| && c.asked <= |e.log| && !c.retried
            && var d := e.clients[c.source];
               && IsFirstPush(e.log[..c.asked], Key(c), d.pushed)
               && e.log[d.pushed] == Push(d.text, Flatten(d.chunks))
               && Delivered([Replay(Flatten(d.chunks))], c) && !NobodyPushed(e.log, c.asked, Key(c))
  {
    var c := e.clients[t];
    assert ClientOk(e, t, c);
    var k :| 0 <= k < |e.list| && e.list[k] == c.source;
    assert Listed(e, e.list[k]);
    var d := e.clients[c.source];
    assert RecordOk(d, e.capacity) && d.next == |d.chunks| by {
      assert ClientOk(e, c.source, d);
    }
    assert d.chunks[..|d.chunks|] == d.chunks;
    AcceptedOne(Replay(d.stored), c.taken);
    assert e.log[..c.asked][d.pushed] == e.log[d.pushed];
  }

  /** Every client that has been answered was sent its own server's response, or a replay of the response
      that was pushed first under its key; the second exactly when something had been pushed under the key
      before its lookup.  It holds what the writes took, all of it if they were whole.  The exception is a
      client whose copy could not be written: it is answered only if its server sends nothing.
      Overlapping clients that both miss are both in the first case. */
  lemma {:induction false} EveryAnswer(unset: nat, capacity: nat, rs: seq<Request>, run: seq<Action>, e: State, t: nat)
    requires Reaches(unset, capacity, rs, run, e) && t < |rs| && e.clients[t].pc == Answered
    ensures var c, key := e.clients[t], HashOf(rs[t].text);
            && c.source < |rs| && c.asked <= |e.log|
            && Delivered(Pieces(rs, t, c.source), c)
            && (Whole(rs, t, c) ==> c.sent == Flatten(Pieces(rs, t, c.source)))
            && (c.source != t ==>
                  && var i := e.clients[c.source].pushed;
                     IsFirstPush(e.log[..c.asked], key, i)
                     && e.log[i] == Push(rs[c.source].text, Flatten(rs[c.source].chunks)))
            && (!c.retried ==> (c.source == t <==> NobodyPushed(e.log, c.asked, key)))
            && (c.retried ==> c.source == t && rs[t].chunks == [] && c.sent == [])
  {
    ReachableOk(unset, capacity, rs, run, e);
    var c := e.clients[t];
    assert RequestOf(c) == rs[t];
    if c.source != t {
      CachedAnswer(e, t);
      assert RequestOf(e.clients[c.source]) == rs[c.source];
    } else {
      ServerAnswer(e, t, c);
    }
    AcceptedWhole(Pieces(rs, t, c.source), c.taken);
  }

  lemma OnlyOneFirst(ops: seq<Op>, key: nat, i: nat, j: nat)
    requires IsFirstPush(ops, key, i)
    ensures IsFirstPush(ops, key, j) ==> i == j
  {
  }

  /** A client is given a response to its own request exactly when nothing had been pushed under its key,
      or the first push under it was made for the same text, or writing it the copy failed. */
  lemma {:induction false} OwnResponseIff(unset: nat, capacity: nat, rs: seq<Request>, run: seq<Action>, e: State,
                                          t: nat)
    requires Reaches(unset, capacity, rs, run, e) && t < |rs| && e.clients[t].pc == Answered
    ensures var c, key := e.clients[t], HashOf(rs[t].text);
            && c.source < |rs| && c.asked <= |e.log|
            && (rs[c.source].text == rs[t].text <==>
                  c.retried || forall i: nat :: IsFirstPush(e.log[..c.asked], key, i) ==> e.log[i].text == rs[t].text)
  {
    EveryAnswer(unset, capacity, rs, run, e, t);
    var c, key := e.clients[t], HashOf(rs[t].text);
    forall i: nat | IsFirstPush(e.log[..c.asked], key, i) && !c.retried
      ensures c.source != t && i == e.clients[c.source].pushed && e.log[i].text == rs[c.source].text
    {
      assert Pushes(e.log[i], key);
      OnlyOneFirst(e.log[..c.asked], key, i, e.clients[c.source].pushed);
    }
  }

  // ---------------------------------------------------------------- records

  predicate Allocated(c: Client, t: nat) {
    c.pc == Relaying || c.pc == Gone || HasPushed(c, t)
  }

  function Frees(freed: seq<nat>, t: nat): nat {
    if freed == [] then 0 else Frees(freed[1..], t) + if freed[0] == t then 1 else 0
  }

  lemma {:induction false} FreedOnce(freed: seq<nat>, t: nat)
    requires NoDuplicates(freed)
    ensures Frees(freed, t) == if t in freed then 1 else 0
  {
    if freed != [] {
      assert NoDuplicates(freed[1..]) by {
        assert forall i :: 0 <= i < |freed[1..]| ==> freed[1..][i] == freed[i + 1];
      }
      FreedOnce(freed[1..], t);
      if t in freed[1..] {
        var i :| 0 <= i < |freed[1..]| && freed[1..][i] == t;
        assert freed[i + 1] == t;
      }
    }
  }

  /** A record that was allocated is in exactly one place: in the hands of its thread, in the list, freed
      (once), or lost by a thread that gave up after a failed connection or write. */
  lemma {:induction false} RecordOwnership(unset: nat, capacity: nat, rs: seq<Request>, run: seq<Action>, e: State,
                                           t: nat)
    requires Reaches(unset, capacity, rs, run, e) && t < |rs|
    ensures var c, listed := e.clients[t], t in e.list;
            && Frees(e.freed, t) <= 1
            && (listed || Frees(e.freed, t) == 1 <==> HasPushed(c, t))
            && !(listed && Frees(e.freed, t) == 1)
            && (c.pc == Gone <==> Allocated(c, t) && c.pc != Relaying && !listed && Frees(e.freed, t) == 0)
            && NoDuplicates(e.list)
  {
    ReachableOk(unset, capacity, rs, run, e);
    FreedOnce(e.freed, t);
    if t in e.list {
      var k :| 0 <= k < |e.list| && e.list[k] == t;
      assert Listed(e, e.list[k]);
    }
    forall i, j | 0 <= i < j < |e.list|
      ensures e.list[i] != e.list[j]
    {
      assert Entries(e.list, e.clients)[i].key != Entries(e.list, e.clients)[j].key;
    }
  }

  // ---------------------------------------------------------------- building runs

  ghost predicate Leads(s0: State, run: seq<Action>, s: State) {
    ValidRun(s0, run) && Exec(s0, run) == s
  }

  lemma {:induction false} Then(s0: State, run: seq<Action>, s: State, a: Action)
    requires Leads(s0, run, s) && Enabled(s, a)
    ensures Leads(s0, run + [a], Step(s, a))
    decreases |run|
  {
    if run == [] {
      assert [a][1..] == [];
      assert run + [a] == [a];
    } else {
      assert (run + [a])[1..] == run[1..] + [a];
      Then(Step(s0, run[0]), run[1..], s, a);
    }
  }

  /** Thread `u` alone relays what is left of its response: into the record, or past its end. */
  lemma {:induction false} RelayTo(s0: State, run: seq<Action>, s: State, u: nat) returns (run': seq<Action>, s': State)
    requires Leads(s0, run, s) && !s.fault && At(s, u, Relaying) && RecordOk(s.clients[u], s.capacity)
    requires !s.clients[u].retried
    ensures Leads(s0, run', s') && (s'.fault <==> s.capacity < |Response(s.clients[u])|)
    ensures !s'.fault ==>
              && s'.clients == s.clients[u := s'.clients[u]] && s' == s.(clients := s'.clients)
              && s'.clients[u].next == |s'.clients[u].chunks| && s'.clients[u].stored == Response(s.clients[u])
              && s'.clients[u].text == s.clients[u].text && s'.clients[u].chunks == s.clients[u].chunks
              && s'.clients[u].pc == Relaying && s'.clients[u].source == s.clients[u].source
    decreases |s.clients[u].chunks| - s.clients[u].next
  {
    var c := s.clients[u];
    if c.next == |c.chunks| {
      assert c.chunks[..c.next] == c.chunks;
      return run, s;
    }
    var a := Relay(u, |c.chunks[c.next]|);
    FlattenNext(c.chunks, c.next);
    FlattenMonotone(c.chunks, c.next + 1);
    Then(s0, run, s, a);
    if Step(s, a).fault {
      return run + [a], Step(s, a);
    }
    run', s' := RelayTo(s0, run + [a], Step(s, a), u);
  }

  // ---------------------------------------------------------------- undefined behaviour

  predicate Harmful(unset: nat, capacity: nat, r: Request) {
    || 4096 <= |r.text| || HashOf(r.text) == unset || !HasHost(r.text) || !r.resolves
    || capacity < |Flatten(r.chunks)|
  }

  ghost predicate Faults(unset: nat, capacity: nat, rs: seq<Request>, run: seq<Action>) {
    ValidRun(Init(unset, capacity, rs), run) && Exec(Init(unset, capacity, rs), run).fault
  }

  lemma {:induction false} HarmfulRun(unset: nat, capacity: nat, rs: seq<Request>, t: nat) returns (run: seq<Action>)
    requires t < |rs| && Harmful(unset, capacity, rs[t])
    ensures Faults(unset, capacity, rs, run)
  {
    var s0 := Init(unset, capacity, rs);
    Then(s0, [], s0, Lookup(t));
    run := [] + [Lookup(t)];
    if !Step(s0, Lookup(t)).fault {
      var e;
      run, e := RelayTo(s0, run, Step(s0, Lookup(t)), t);
    }
  }

  lemma FaultyStep(s: State, a: Action)
    requires Enabled(s, a) && ClientOk(s, a.t, s.clients[a.t]) && Step(s, a).fault
    ensures Harmful(s.unset, s.capacity, RequestOf(s.clients[a.t]))
  {
    var c := s.clients[a.t];
    if a.Relay? {
      FlattenNext(c.chunks, c.next);
      FlattenMonotone(c.chunks, c.next + 1);
    }
  }

  lemma {:induction false} FaultHasCause(s: State, rs: seq<Request>, run: seq<Action>)
    requires Inv(s) && SameRequests(s, rs) && !s.fault && ValidRun(s, run) && Exec(s, run).fault
    ensures exists t :: 0 <= t < |rs| && Harmful(s.unset, s.capacity, rs[t])
    decreases |run|
  {
    var a := run[0];
    var s' := Step(s, a);
    if s'.fault {
      FaultyStep(s, a);
      assert rs[a.t] == RequestOf(s.clients[a.t]);
    } else {
      StepKeepsInv(s, a);
      StepKeepsRequests(s, rs, a);
      FaultHasCause(s', rs, run[1..]);
    }
  }

  /** Some interleaving reaches one of the undefined operations exactly when some request does not fit its
      buffer, has the head's key, has no host name that can be cut out and resolved, or gets a response
      that does not fit. */
  lemma {:induction false} FaultIff(unset: nat, capacity: nat, rs: seq<Request>)
    ensures (exists run :: Faults(unset, capacity, rs, run)) <==>
            (exists t :: 0 <= t < |rs| && Harmful(unset, capacity, rs[t]))
  {
    if t :| 0 <= t < |rs| && Harmful(unset, capacity, rs[t]) {
      var run := HarmfulRun(unset, capacity, rs, t);
      assert Faults(unset, capacity, rs, run);
    } else {
      forall run | Faults(unset, capacity, rs, run)
        ensures false
      {
        InitEstablishesInv(unset, capacity, rs);
        FaultHasCause(Init(unset, capacity, rs), rs, run);
      }
    }
  }

  // ---------------------------------------------------------------- other people's responses

  /** Client `u` can be served from the server and its response cached. */
  predicate Cacheable(unset: nat, capacity: nat, r: Request) {
    && |r.text| < 4096 && HashOf(r.text) != unset && HasHost(r.text) && r.resolves
    && |Flatten(r.chunks)| <= capacity
  }

  /** Client `u` is served while all others have yet to be looked up. */
  lemma {:induction false} ServeFirst(unset: nat, capacity: nat, rs: seq<Request>, u: nat)
    returns (run: seq<Action>, e: State)
    requires u < |rs| && Cacheable(unset, capacity, rs[u])
    ensures Reaches(unset, capacity, rs, run, e)
    ensures e.list == [u] && e.freed == [] && e.unset == unset && !e.fault && e.clients[u].text == rs[u].text
    ensures e.clients == Init(unset, capacity, rs).clients[u := e.clients[u]]
    ensures e.clients[u].stored == Flatten(rs[u].chunks)
  {
    var s0 := Init(unset, capacity, rs);
    Then(s0, [], s0, Lookup(u));
    run, e := RelayTo(s0, [] + [Lookup(u)], Step(s0, Lookup(u)), u);
    Then(s0, run, e, Publish(u));
    run, e := run + [Publish(u)], Step(e, Publish(u));
  }

  /** Client `u` is served, then client `t`, whose request has the same key, is looked up. */
  lemma {:induction false} LookedUpSecond(unset: nat, capacity: nat, rs: seq<Request>, t: nat, u: nat)
    returns (run: seq<Action>, e: State)
    requires t < |rs| && u < |rs| && t != u && HashOf(rs[t].text) == HashOf(rs[u].text)
    requires |rs[t].text| < MAX_BUFFER_SIZE && Cacheable(unset, capacity, rs[u])
    ensures Reaches(unset, capacity, rs, run, e) && !e.fault && e.list == [u] && e.freed == []
    ensures At(e, t, Sending) && RequestOf(e.clients[t]) == rs[t] && !e.clients[t].retried
    ensures e.clients[t].source == u && e.clients[t].copy == Replay(Flatten(rs[u].chunks)) && e.clients[t].next == 0
    ensures e.clients[t].sent == []
  {
    run, e := ServeFirst(unset, capacity, rs, u);
    Then(Init(unset, capacity, rs), run, e, Lookup(t));
    run, e := run + [Lookup(t)], Step(e, Lookup(t));
  }

  /** Then `t` gets a replay of the response to the request of `u`, whatever the texts are. */
  lemma {:induction false} SecondGetsFirstsResponse(unset: nat, capacity: nat, rs: seq<Request>, t: nat, u: nat)
    returns (run: seq<Action>, e: State)
    requires t < |rs| && u < |rs| && t != u && HashOf(rs[t].text) == HashOf(rs[u].text)
    requires |rs[t].text| < MAX_BUFFER_SIZE && Cacheable(unset, capacity, rs[u])
    ensures Reaches(unset, capacity, rs, run, e)
    ensures At(e, t, Answered) && e.clients[t].source == u && e.clients[t].sent == Replay(Flatten(rs[u].chunks))
  {
    run, e := LookedUpSecond(unset, capacity, rs, t, u);
    var copy := e.clients[t].copy;
    Then(Init(unset, capacity, rs), run, e, Send(t, |copy|));
    run, e := run + [Send(t, |copy|)], Step(e, Send(t, |copy|));
    assert copy[..|copy|] == copy;
  }

  /** Two requests that differ only in "ab" for "bA": the second client gets the first one's response. */
  lemma {:induction false} CollisionIsServed(unset: nat, capacity: nat, prefix: seq<byte>, suffix: seq<byte>,
                                             mine: seq<seq<byte>>, theirs: seq<seq<byte>>)
    returns (run: seq<Action>, e: State)
    requires Cacheable(unset, capacity, Request(prefix + [97, 98] + suffix, true, theirs))
    ensures var rs := [Request(prefix + [98, 65] + suffix, true, mine),
                       Request(prefix + [97, 98] + suffix, true, theirs)];
            && rs[0].text != rs[1].text && Reaches(unset, capacity, rs, run, e)
            && At(e, 0, Answered) && e.clients[0].sent == Replay(Flatten(theirs))
  {
    CollidingRequests(prefix, suffix);
    var rs := [Request(prefix + [98, 65] + suffix, true, mine), Request(prefix + [97, 98] + suffix, true, theirs)];
    run, e := SecondGetsFirstsResponse(unset, capacity, rs, 0, 1);
  }

  ghost predicate GivenAnothers(unset: nat, capacity: nat, rs: seq<Request>, run: seq<Action>, t: nat) {
    && ValidRun(Init(unset, capacity, rs), run) && t < |rs|
    && var c := Exec(Init(unset, capacity, rs), run).clients[t];
       c.pc == Answered && c.source < |rs| && rs[c.source].text != rs[t].text
  }

  predicate Collide(unset: nat, capacity: nat, rs: seq<Request>, t: nat, u: nat) {
    && t < |rs| && u < |rs| && rs[t].text != rs[u].text && HashOf(rs[t].text) == HashOf(rs[u].text)
    && |rs[t].text| < MAX_BUFFER_SIZE && Cacheable(unset, capacity, rs[u])
  }

  lemma PushedIsCacheable(e: State, u: nat)
    requires u < |e.clients| && ClientOk(e, u, e.clients[u]) && HasPushed(e.clients[u], u)
    ensures Cacheable(e.unset, e.capacity, RequestOf(e.clients[u]))
  {
    var d := e.clients[u];
    assert d.chunks[..|d.chunks|] == d.chunks;
  }

  lemma {:induction false} AnothersCollide(unset: nat, capacity: nat, rs: seq<Request>, run: seq<Action>, t: nat)
    requires GivenAnothers(unset, capacity, rs, run, t)
    ensures Collide(unset, capacity, rs, t, Exec(Init(unset, capacity, rs), run).clients[t].source)
  {
    var e := Exec(Init(unset, capacity, rs), run);
    var c := e.clients[t];
    ReachableOk(unset, capacity, rs, run, e);
    EveryAnswer(unset, capacity, rs, run, e, t);
    assert ClientOk(e, t, c);
    SourceHasPushed(e, t);
    PushedIsCacheable(e, c.source);
    assert RequestOf(e.clients[c.source]) == rs[c.source];
  }

  /** With descriptors that are never reused: some interleaving gives a client the response to another
      request exactly when two different requests have the same key and the response to one of them can be
      fetched and fits in a record.  (Reuse of descriptors is the subject of ProxyDescriptors.) */
  lemma {:induction false} AnothersResponseIff(unset: nat, capacity: nat, rs: seq<Request>)
    ensures (exists run, t :: GivenAnothers(unset, capacity, rs, run, t)) <==>
            (exists t: nat, u: nat :: Collide(unset, capacity, rs, t, u))
  {
    if t: nat, u: nat :| Collide(unset, capacity, rs, t, u) {
      var run, e := SecondGetsFirstsResponse(unset, capacity, rs, t, u);
      assert GivenAnothers(unset, capacity, rs, run, t);
    }
    if run, t :| GivenAnothers(unset, capacity, rs, run, t) {
      AnothersCollide(unset, capacity, rs, run, t);
    }
  }

  // ---------------------------------------------------------------- every run ends

  /** Actions a thread can still take. */
  function Left(c: Client): int {
    match c.pc
    case Finding => |c.chunks| + 3
    case Sending => |c.chunks| + 2
    case Relaying => |c.chunks| - c.next + 1
    case _ => 0
  }

  function Lefts(cs: seq<Client>): seq<int> {
    seq(|cs|, t requires 0 <= t < |cs| => Left(cs[t]))
  }

  lemma StepReducesLeft(s: State, a: Action)
    requires Enabled(s, a) && RecordOk(s.clients[a.t], s.capacity) && !Step(s, a).fault
    requires s.clients[a.t].pc == Sending ==> s.clients[a.t].next == 0
    ensures Step(s, a).clients == s.clients[a.t := Step(s, a).clients[a.t]]
    ensures Left(Step(s, a).clients[a.t]) < Left(s.clients[a.t])
  {
  }

  lemma LeftNonNegative(s: State)
    requires Inv(s)
    ensures 0 <= Sum(Lefts(s.clients))
  {
    forall t | 0 <= t < |s.clients|
      ensures 0 <= Lefts(s.clients)[t]
    {
      assert ClientOk(s, t, s.clients[t]);
    }
    SumNonNegative(Lefts(s.clients));
  }

  lemma {:induction false} RunReducesLeft(s: State, run: seq<Action>)
    requires Inv(s) && ValidRun(s, run)
    ensures |run| <= Sum(Lefts(s.clients)) + if Exec(s, run).fault then 1 else 0
    decreases |run|
  {
    LeftNonNegative(s);
    if run != [] {
      var a := run[0];
      var s' := Step(s, a);
      if s'.fault {
        assert run[1..] == [];
      } else {
        assert ClientOk(s, a.t, s.clients[a.t]);
        StepReducesLeft(s, a);
        assert Lefts(s'.clients) == Lefts(s.clients)[a.t := Left(s'.clients[a.t])];
        SumUpdate(Lefts(s.clients), a.t, Left(s'.clients[a.t]));
        StepKeepsInv(s, a);
        RunReducesLeft(s', run[1..]);
      }
    }
  }

  /** The chunks of all responses, and three actions more for each client. */
  function Budget(rs: seq<Request>): nat {
    if rs == [] then 0 else |rs[0].chunks| + 3 + Budget(rs[1..])
  }

  lemma {:induction false} InitialLeft(unset: nat, capacity: nat, rs: seq<Request>)
    ensures Sum(Lefts(Init(unset, capacity, rs).clients)) == Budget(rs)
  {
    if rs != [] {
      InitialLeft(unset, capacity, rs[1..]);
      var cs := Init(unset, capacity, rs).clients;
      assert Lefts(cs)[1..] == Lefts(Init(unset, capacity, rs[1..]).clients);
    }
  }

  /** A client that is not done can act. */
  lemma ClientCanAct(s: State, t: nat) returns (a: Action)
    requires Inv(s) && !s.fault && t < |s.clients| && s.clients[t].pc != Answered && s.clients[t].pc != Gone
    ensures Enabled(s, a)
  {
    var c := s.clients[t];
    assert ClientOk(s, t, c);
    match c.pc
    case Finding => a := Lookup(t);
    case Sending => a := Send(t, 0);
    case Relaying => a := if c.next == |c.chunks| then Publish(t) else Fail(t);
  }

  /** Every run is bounded by the chunks plus three actions per client and a fault; one that cannot be
      continued and has met no fault has answered every client or lost it to a failed write. */
  lemma {:induction false} EveryRunEnds(unset: nat, capacity: nat, rs: seq<Request>, run: seq<Action>, e: State)
    requires Reaches(unset, capacity, rs, run, e)
    ensures |run| <= Budget(rs) + if e.fault then 1 else 0
    ensures !e.fault && (forall a :: !Enabled(e, a)) ==>
              forall t :: 0 <= t < |rs| ==> e.clients[t].pc == Answered || e.clients[t].pc == Gone
  {
    InitEstablishesInv(unset, capacity, rs);
    RunReducesLeft(Init(unset, capacity, rs), run);
    InitialLeft(unset, capacity, rs);
    ReachableOk(unset, capacity, rs, run, e);
    if !e.fault && (forall a :: !Enabled(e, a)) {
      forall t | 0 <= t < |rs|
        ensures e.clients[t].pc == Answered || e.clients[t].pc == Gone
      {
        if e.clients[t].pc != Answered && e.clients[t].pc != Gone {
          var a := ClientCanAct(e, t);
          assert false;
        }
      }
    }
  }

  // ---------------------------------------------------------------- what the network may do

  /** A write may take any number of bytes, and it may fail. */
  lemma WritesMayFallShort(s: State, t: nat, n: nat)
    requires !s.fault && t < |s.clients|
    ensures var c := s.clients[t];
            && (c.pc == Sending ==> Enabled(s, Fail(t)) && (n <= |c.copy| ==> Enabled(s, Send(t, n))))
            && (c.pc == Relaying && !c.retried && c.next < |c.chunks| ==>
                  Enabled(s, Fail(t)) && (n <= |c.chunks[c.next]| ==> Enabled(s, Relay(t, n))))
  {
  }

  /** A client whose copy cannot be written goes to the server, and is lost at the first chunk: its record
      is never freed. */
  lemma {:induction false} FailedCopyRun(unset: nat, capacity: nat, rs: seq<Request>, t: nat, u: nat)
    returns (run: seq<Action>, e: State)
    requires t < |rs| && u < |rs| && t != u && HashOf(rs[t].text) == HashOf(rs[u].text)
    requires Cacheable(unset, capacity, rs[u]) && |rs[t].text| < 4096 && HasHost(rs[t].text) && rs[t].resolves
    ensures Reaches(unset, capacity, rs, run, e)
    ensures At(e, t, Gone) && e.clients[t].retried && e.clients[t].sent == [] && t !in e.list && t !in e.freed
  {
    var s0 := Init(unset, capacity, rs);
    run, e := LookedUpSecond(unset, capacity, rs, t, u);
    Then(s0, run, e, Fail(t));
    run, e := run + [Fail(t)], Step(e, Fail(t));
    Then(s0, run, e, Fail(t));
    run, e := run + [Fail(t)], Step(e, Fail(t));
  }
}
