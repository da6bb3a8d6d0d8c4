/**
 execute_client_request of semestr2/Task3/src/proxy.c running in many threads over one heap: the list of
 cache_list.h, walked by every lookup and push, and the local variables of each thread.  `model` is the
 state of ProxyThreads that they stand for.  A record is a local value of its thread until it is pushed.
 */
module ProxyProgram {
  import opened Bytes
  import opened CacheSpec
  import opened ProxyHost
  import opened ProxyCache
  import opened ProxyThreads
  import opened ProxyAnswers

  datatype Handler = Handler(text: seq<byte>, resolves: bool, chunks: seq<seq<byte>>, pc: Pc, next: nat,
                             response: seq<byte>, copy: seq<byte>, sent: seq<byte>, retried: bool)

  predicate Shows(h: Handler, c: Client) {
    h == Handler(c.text, c.resolves, c.chunks, c.pc, c.next, c.stored, c.copy, c.sent, c.retried)
  }

  ghost predicate Shown(hs: seq<Handler>, cs: seq<Client>) {
    |hs| == |cs| && forall t :: 0 <= t < |hs| ==> Shows(hs[t], cs[t])
  }

  /** The thread at `h` after an action other than a lookup or a push. */
  function LocalStep(h: Handler, a: Action): Handler
    requires a.Send? ==> a.n <= |h.copy|
    requires a.Relay? ==> h.next < |h.chunks| && a.n <= |h.chunks[h.next]|
  {
    match a
    case Send(_, n) => h.(pc := Answered, sent := h.copy[..n])
    case Relay(_, n) =>
      h.(next := h.next + 1, response := h.response + h.chunks[h.next], sent := h.sent + h.chunks[h.next][..n])
    case Fail(_) => if h.pc == Sending then h.(pc := Relaying, retried := true) else h.(pc := Gone)
    case _ => h
  }

  /** What one lookup of the list means for the model. */
  ghost predicate TableAgrees(s: State, table: Table, key: nat) {
    match Walk(s.list, s.clients, key)
    case Some(u) => u < |s.clients| && key in table && table[key] == s.clients[u].stored
    case None => key !in table
  }

  lemma WalkIsLookup(s: State, key: nat)
    requires Inv(s)
    ensures TableAgrees(s, TableOf(Entries(s.list, s.clients)), key)
  {
    var es := Entries(s.list, s.clients);
    WalkFindsFirst(s, key);
    TableHas(es, key);
    var w := Walk(s.list, s.clients, key);
    if w.Some? {
      var k :| 0 <= k < |s.list| && s.list[k] == w.value;
      assert es[k] == Entry(key, s.clients[w.value].stored);
    }
  }

  lemma ShownAfter(hs: seq<Handler>, cs: seq<Client>, t: nat, h: Handler, c: Client)
    requires Shown(hs, cs) && t < |hs| && Shows(h, c)
    ensures Shown(hs[t := h], cs[t := c])
  {
  }

  /** strcpy, the lookup, and on a miss cutting out and resolving the host name: one of them is undefined. */
  predicate Hopeless(h: Handler, found: Lookup) {
    MAX_BUFFER_SIZE <= |h.text| || found.Unset? || (found.Miss? && !(HasHost(h.text) && h.resolves))
  }

  function AfterFinding(h: Handler, found: Lookup): Handler {
    if found.Hit? then h.(pc := Sending, copy := found.bytes) else h.(pc := Relaying)
  }

  /** What a lookup does to the local variables, told by what it found. */
  lemma LookupShown(hs: seq<Handler>, s: State, table: Table, t: nat, found: Lookup)
    requires Shown(hs, s.clients) && Enabled(s, ProxyThreads.Lookup(t)) && TableAgrees(s, table, Key(s.clients[t]))
    requires found == LookupIn(s.unset, table, HashOf(hs[t].text))
    ensures Step(s, ProxyThreads.Lookup(t)).fault <==> Hopeless(hs[t], found)
    ensures !Hopeless(hs[t], found) ==>
              Shown(hs[t := AfterFinding(hs[t], found)], Step(s, ProxyThreads.Lookup(t)).clients)
  {
    if !Hopeless(hs[t], found) {
      ShownAfter(hs, s.clients, t, AfterFinding(hs[t], found), AfterLookup(s, t));
    }
  }

  lemma PublishShown(hs: seq<Handler>, s: State, t: nat)
    requires Shown(hs, s.clients) && Enabled(s, ProxyThreads.Publish(t)) && t !in s.list
    ensures var s' := Step(s, ProxyThreads.Publish(t));
            && Shown(hs[t := hs[t].(pc := Answered)], s'.clients)
            && Entries(s'.list, s'.clients) ==
                 if Walk(s.list, s.clients, Key(s.clients[t])).Some? then Entries(s.list, s.clients)
                 else Entries(s.list, s.clients) + [Entry(HashOf(hs[t].text), hs[t].response)]
  {
    var s' := Step(s, ProxyThreads.Publish(t));
    ShownAfter(hs, s.clients, t, hs[t].(pc := Answered), s'.clients[t]);
    EntriesKept(s.list, s.clients, t, s'.clients[t]);
    EntriesGrow(s.list, s'.clients, t);
  }

  /** A chunk that does not fit, or a way to the server that is undefined after a failed write. */
  predicate LocalFault(h: Handler, a: Action, capacity: nat)
    requires a.Relay? ==> h.next < |h.chunks|
  {
    || (a.Relay? && capacity < |h.response| + |h.chunks[h.next]|)
    || (a.Fail? && h.pc == Sending && !(HasHost(h.text) && h.resolves))
  }

  lemma LocalShown(hs: seq<Handler>, s: State, a: Action)
    requires Shown(hs, s.clients) && Enabled(s, a) && !a.Lookup? && !a.Publish?
    ensures Step(s, a).fault <==> LocalFault(hs[a.t], a, s.capacity)
    ensures !Step(s, a).fault ==> Shown(hs[a.t := LocalStep(hs[a.t], a)], Step(s, a).clients)
  {
    if !Step(s, a).fault {
      ShownAfter(hs, s.clients, a.t, LocalStep(hs[a.t], a), Step(s, a).clients[a.t]);
    }
  }

  /** What a thread needs for its next step: the walk of the list goes as in the model, its own record is
      not in the list yet and has not overflowed, and no listed record changes. */
  ghost predicate Ready(s: State, a: Action)
    requires Enabled(s, a)
  {
    && TableAgrees(s, TableOf(Entries(s.list, s.clients)), Key(s.clients[a.t])) && a.t !in s.list
    && |s.clients[a.t].stored| <= s.capacity
    && (!a.Publish? ==> Step(s, a).list == s.list && Entries(s.list, Step(s, a).clients) == Entries(s.list, s.clients))
  }

  lemma StepKeepsEntries(s: State, a: Action)
    requires Enabled(s, a) && !a.Publish? && a.t !in s.list
    ensures Step(s, a).list == s.list && Entries(s.list, Step(s, a).clients) == Entries(s.list, s.clients)
  {
    EntriesKept(s.list, s.clients, a.t, Step(s, a).clients[a.t]);
  }

  lemma ReadyInv(s: State, a: Action)
    requires Inv(s) && Enabled(s, a)
    ensures Ready(s, a)
  {
    WalkIsLookup(s, Key(s.clients[a.t]));
    assert ClientOk(s, a.t, s.clients[a.t]);
    LocalKeepsList(s, a.t, s.clients[a.t]);
    if !a.Publish? {
      StepKeepsEntries(s, a);
    }
  }

  predicate CanAct(hs: seq<Handler>, a: Action) {
    && a.t < |hs|
    && var h := hs[a.t];
       match a
       case Lookup(_) => h.pc == Finding
       case Send(_, n) => h.pc == Sending && n <= |h.copy|
       case Relay(_, n) => h.pc == Relaying && !h.retried && h.next < |h.chunks| && n <= |h.chunks[h.next]|
       case Publish(_) => h.pc == Relaying && h.next == |h.chunks|
       case Fail(_) => h.pc == Sending || (h.pc == Relaying && (h.next == 0 || h.next < |h.chunks|))
  }

  /** The local variables tell whether an action is possible. */
  lemma CanActIff(hs: seq<Handler>, s: State, a: Action)
    requires Shown(hs, s.clients) && !s.fault
    ensures CanAct(hs, a) <==> Enabled(s, a)
  {
  }

  lemma ReadyWhenReached(unset: nat, capacity: nat, rs: seq<Request>, run: seq<Action>, s: State, a: Action)
    requires Reaches(unset, capacity, rs, run, s) && Enabled(s, a)
    ensures Ready(s, a) && Reaches(unset, capacity, rs, run + [a], Step(s, a))
  {
    ReachableOk(unset, capacity, rs, run, s);
    ReadyInv(s, a);
    Then(Init(unset, capacity, rs), run, s, a);
  }

  class Proxy {
    const cache: Cache
    var handlers: seq<Handler>
    ghost var model: State

    /** The list on the heap and the local variables are those of the model. */
    ghost predicate Valid()
      reads this, cache, cache.head, cache.records
    {
      && cache.Valid() && model.unset == cache.head.request && model.capacity == cache.capacity && !model.fault
      && Shown(handlers, model.clients)
      && cache.entries == Entries(model.list, model.clients)
    }

    constructor (unset: nat, capacity: nat, rs: seq<Request>)
      ensures Valid() && model == Init(unset, capacity, rs)
      ensures fresh(cache) && fresh(cache.head) && cache.records == []
    {
      cache := new Cache(unset, capacity);
      handlers := seq(|rs|, t requires 0 <= t < |rs| =>
        Handler(rs[t].text, rs[t].resolves, rs[t].chunks, Finding, 0, [], [], [], false));
      model := Init(unset, capacity, rs);
    }

    method Install(hs: seq<Handler>, ghost s: State)
      requires cache.Valid() && s.unset == cache.head.request && s.capacity == cache.capacity && !s.fault
      requires Shown(hs, s.clients) && cache.entries == Entries(s.list, s.clients)
      modifies this`handlers, this`model
      ensures Valid() && model == s && handlers == hs
    {
      handlers, model := hs, s;
    }

    method Lookup(t: nat) returns (defined: bool)
      requires Valid() && Enabled(model, ProxyThreads.Lookup(t)) && Ready(model, ProxyThreads.Lookup(t))
      modifies this`handlers, this`model
      ensures defined <==> !Step(old(model), ProxyThreads.Lookup(t)).fault
      ensures defined ==> Valid() && model == Step(old(model), ProxyThreads.Lookup(t))
    {
      var found := cache.SendFromCache(handlers[t].text);
      LookupShown(handlers, model, cache.table, t, found);
      defined := !Hopeless(handlers[t], found);
      if defined {
        Install(handlers[t := AfterFinding(handlers[t], found)], Step(model, ProxyThreads.Lookup(t)));
      }
    }

    /** Sending, relaying and failing touch only the thread's own variables. */
    method Local(a: Action) returns (defined: bool)
      requires Valid() && Enabled(model, a) && Ready(model, a) && !a.Lookup? && !a.Publish?
      modifies this`handlers, this`model
      ensures defined <==> !Step(old(model), a).fault
      ensures defined ==> Valid() && model == Step(old(model), a)
    {
      var h := handlers[a.t];
      LocalShown(handlers, model, a);
      defined := !LocalFault(h, a, cache.capacity);
      if defined {
        Install(handlers[a.t := LocalStep(h, a)], Step(model, a));
      }
    }

    /** push_record on the heap list, which is then that of `s`. */
    method PushAndInstall(text: seq<byte>, response: seq<byte>, hs: seq<Handler>, ghost s: State)
      requires cache.Valid() && |response| <= cache.capacity
      requires s.unset == cache.head.request && s.capacity == cache.capacity && !s.fault && Shown(hs, s.clients)
      requires Entries(s.list, s.clients) ==
               if HashOf(text) in cache.table then cache.entries else cache.entries + [Entry(HashOf(text), response)]
      modifies this`handlers, this`model, cache, cache.head, cache.records
      ensures Valid() && model == s && handlers == hs
      ensures forall r :: r in cache.records ==> r in old(cache.records) || fresh(r)
    {
      cache.PushResponse(text, response);
      Install(hs, s);
    }

    method Publish(t: nat)
      requires Valid() && Enabled(model, ProxyThreads.Publish(t)) && Ready(model, ProxyThreads.Publish(t))
      modifies this`handlers, this`model, cache, cache.head, cache.records
      ensures Valid() && model == Step(old(model), ProxyThreads.Publish(t))
      ensures forall r :: r in cache.records ==> r in old(cache.records) || fresh(r)
    {
      var h := handlers[t];
      PublishShown(handlers, model, t);
      PushAndInstall(h.text, h.response, handlers[t := h.(pc := Answered)], Step(model, ProxyThreads.Publish(t)));
    }

    /** One action of one thread; false when its behaviour is undefined. */
    method Perform(a: Action) returns (defined: bool)
      requires Valid() && Enabled(model, a) && Ready(model, a)
      modifies this`handlers, this`model, cache, cache.head, cache.records
      ensures defined <==> !Step(old(model), a).fault
      ensures defined ==> Valid() && model == Step(old(model), a)
      ensures forall r :: r in cache.records ==> r in old(cache.records) || fresh(r)
    {
      match a
      case Lookup(t) => defined := Lookup(t);
      case Publish(t) =>
        Publish(t);
        defined := true;
      case _ => defined := Local(a);
    }

    /** The action if the thread can do it, otherwise nothing; `s` is where the run then is. */
    method Attempt(a: Action, ghost unset: nat, ghost capacity: nat, ghost rs: seq<Request>, ghost run: seq<Action>)
      returns (defined: bool, ghost run': seq<Action>, ghost s: State)
      requires Valid() && Reaches(unset, capacity, rs, run, model)
      modifies this`handlers, this`model, cache, cache.head, cache.records
      ensures Reaches(unset, capacity, rs, run', s) && (defined <==> !s.fault)
      ensures defined ==> Valid() && model == s
      ensures forall r :: r in cache.records ==> r in old(cache.records) || fresh(r)
    {
      CanActIff(handlers, model, a);
      if !CanAct(handlers, a) {
        return true, run, model;
      }
      ReadyWhenReached(unset, capacity, rs, run, model, a);
      run', s := run + [a], Step(model, a);
      defined := Perform(a);
    }

    /** Runs the threads as the schedule says, passing over what a thread cannot do, and stops where the
        behaviour is undefined. */
    method Follow(schedule: seq<Action>, ghost unset: nat, ghost capacity: nat, ghost rs: seq<Request>,
                  ghost run: seq<Action>)
      returns (defined: bool, ghost run': seq<Action>, ghost e: State)
      requires Valid() && Reaches(unset, capacity, rs, run, model)
      modifies this`handlers, this`model, cache, cache.head, cache.records
      ensures Reaches(unset, capacity, rs, run', e) && (defined <==> !e.fault)
      ensures defined ==> Shown(handlers, e.clients)
      decreases |schedule|
    {
      if schedule == [] {
        return true, run, model;
      }
      defined, run', e := Attempt(schedule[0], unset, capacity, rs, run);
      if defined {
        assert forall i :: 0 <= i < |cache.records| ==>
                 cache.records[i] in old(cache.records) || fresh(cache.records[i]);
        defined, run', e := Follow(schedule[1..], unset, capacity, rs, run');
      }
    }
  }

  /** All clients from the start, under any schedule: what they get is what the run that was made gives
      them, in their own terms. */
  method Serve(unset: nat, capacity: nat, rs: seq<Request>, schedule: seq<Action>)
    returns (handlers: seq<Handler>, defined: bool, ghost run: seq<Action>, ghost e: State)
    ensures Reaches(unset, capacity, rs, run, e) && (defined <==> !e.fault)
    ensures (forall t :: 0 <= t < |rs| ==> !Harmful(unset, capacity, rs[t])) ==> defined
    ensures defined ==> Shown(handlers, e.clients) && |handlers| == |rs|
    ensures defined ==> forall t :: 0 <= t < |rs| && handlers[t].pc == Answered && Whole(rs, t, e.clients[t]) ==>
              || handlers[t].sent == Flatten(rs[t].chunks)
              || exists u :: 0 <= u < |rs| && HashOf(rs[u].text) == HashOf(rs[t].text)
                             && handlers[t].sent == Replay(Flatten(rs[u].chunks))
  {
    var proxy := new Proxy(unset, capacity, rs);
    defined, run, e := proxy.Follow(schedule, unset, capacity, rs, []);
    handlers := proxy.handlers;
    if !defined {
      InitEstablishesInv(unset, capacity, rs);
      FaultHasCause(Init(unset, capacity, rs), rs, run);
      return;
    }
    ReachableOk(unset, capacity, rs, run, e);
    forall t | 0 <= t < |rs| && handlers[t].pc == Answered && Whole(rs, t, e.clients[t])
               && handlers[t].sent != Flatten(rs[t].chunks)
      ensures exists u :: 0 <= u < |rs| && HashOf(rs[u].text) == HashOf(rs[t].text)
                          && handlers[t].sent == Replay(Flatten(rs[u].chunks))
    {
      EveryAnswer(unset, capacity, rs, run, e, t);
      var c := e.clients[t];
      var copy := Replay(Flatten(rs[c.source].chunks));
      assert Pushes(e.log[e.clients[c.source].pushed], HashOf(rs[t].text));
      assert Flatten([copy]) == Flatten([]) + copy == copy;
    }
  }
}
