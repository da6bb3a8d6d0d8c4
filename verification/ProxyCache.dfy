/** cache_list.h and the relay loop of proxy.c (semestr2/Task3) on the heap. */
module ProxyCache {
  import opened Bytes
  import opened CacheSpec
  import opened Sums

  /** `response` is the buffer calloc returned: its length never changes. */
  class Record {
    var request: nat
    var response: seq<byte>
    var responseLen: nat
    var next: Record?

    /** malloc and init_cache_record: a zeroed buffer of `capacity` bytes. */
    constructor (capacity: nat)
      ensures |response| == capacity && next == null && responseLen == 0
    {
      response := seq(capacity, _ => 0);
      request, responseLen, next := 0, 0, null;
    }

    predicate Filled()
      reads this
    {
      responseLen <= |response|
    }

    function Stored(): seq<byte>
      reads this
      requires Filled()
    {
      response[..responseLen]
    }
  }

  lemma HashStep(h: nat, c: int)
    ensures (h * 32 % WORD + h + c) % WORD == (33 * h + c) % WORD
  {
  }

  method Hash(str: seq<byte>) returns (hash: nat)
    ensures hash == HashOf(str)
    ensures hash == Sum(Terms(str)) % 0x1_0000_0000_0000_0000
  {
    hash := 0;
    for i := 0 to |str|
      invariant hash == HashOf(str[..i])
    {
      hash := (hash * 32 % WORD + hash + Signed(str[i])) % WORD;
      HashStep(HashOf(str[..i]), Signed(str[i]));
      assert str[..i + 1][..i] == str[..i];
    }
    assert str[..|str|] == str;
    HashIsBase33(str);
  }

  /** strncpy(dst, src, n). */
  method Strncpy(dst: array<byte>, src: seq<byte>, n: nat)
    requires n <= dst.Length && n <= |src|
    modifies dst
    ensures dst[..n] == Replay(src[..n]) && dst[n..] == old(dst[n..])
  {
    var i := 0;
    while i < n && src[i] != 0
      invariant 0 <= i <= n
      invariant forall k :: 0 <= k < i ==> dst[k] == src[k] && src[k] != 0
      invariant forall k :: n <= k < dst.Length ==> dst[k] == old(dst[k])
    {
      dst[i] := src[i];
      i := i + 1;
    }
    ghost var nul := i;
    while i < n
      invariant nul <= i <= n
      invariant nul < n ==> src[nul] == 0
      invariant forall k :: 0 <= k < nul ==> dst[k] == src[k] && src[k] != 0
      invariant forall k :: nul <= k < i ==> dst[k] == 0
      invariant forall k :: n <= k < dst.Length ==> dst[k] == old(dst[k])
    {
      dst[i] := 0;
      i := i + 1;
    }
    forall k | 0 <= k < n
      ensures dst[..n][k] == Replay(src[..n])[k]
    {
      ReplayAt(src[..n], k);
      assert nul <= k ==> src[..n][nul] == 0;
    }
  }

  /** memcpy(record->response + position, chunk, |chunk|). */
  method AddResponse(record: Record, chunk: seq<byte>, position: nat)
    requires position + |chunk| <= |record.response|
    modifies record`response
    ensures |record.response| == |old(record.response)|
    ensures record.response[..position + |chunk|] == old(record.response)[..position] + chunk
  {
    record.response := record.response[..position] + chunk + record.response[position + |chunk|..];
  }

  const SEND_ERROR := -1

  /** The first write that fails. */
  function FirstError(writes: seq<int>): (k: nat)
    ensures k <= |writes| && (k < |writes| ==> writes[k] == -1)
    ensures forall i :: 0 <= i < k ==> writes[i] != -1
  {
    if writes == [] || writes[0] == SEND_ERROR then 0 else 1 + FirstError(writes[1..])
  }

  /** `writes[i]` is what write returns for chunk i: an error, or how many of its bytes were taken. */
  predicate WriteResults(chunks: seq<seq<byte>>, writes: seq<int>) {
    |writes| == |chunks| && forall i :: 0 <= i < |chunks| ==> -1 <= writes[i] <= |chunks[i]|
  }

  datatype Outcome = Complete | WriteFailed | Overran

  /** The first k writes, none of which failed. */
  function Sizes(chunks: seq<seq<byte>>, writes: seq<int>, k: nat): (taken: seq<nat>)
    requires WriteResults(chunks, writes) && k <= FirstError(writes)
    ensures |taken| == k && Takes(chunks, taken) && forall i :: 0 <= i < k ==> taken[i] == writes[i]
  {
    seq(k, i requires 0 <= i < k => writes[i])
  }

  lemma AcceptedNext(chunks: seq<seq<byte>>, writes: seq<int>, k: nat)
    requires WriteResults(chunks, writes) && k < FirstError(writes)
    ensures Accepted(chunks, Sizes(chunks, writes, k + 1))
              == Accepted(chunks, Sizes(chunks, writes, k)) + chunks[k][..writes[k]]
  {
    assert Sizes(chunks, writes, k + 1)[..k] == Sizes(chunks, writes, k);
  }

  lemma AllTaken(chunks: seq<seq<byte>>, writes: seq<int>)
    requires WriteResults(chunks, writes) && FirstError(writes) == |chunks|
    ensures (forall i :: 0 <= i < |chunks| ==> writes[i] == |chunks[i]|) ==>
              Accepted(chunks, Sizes(chunks, writes, |chunks|)) == Flatten(chunks)
  {
    assert chunks[..|chunks|] == chunks;
    if forall i :: 0 <= i < |chunks| ==> writes[i] == |chunks[i]| {
      FullWritesDeliverAll(chunks, Sizes(chunks, writes, |chunks|));
    }
  }

  /** The relay loop: each chunk read from the server is written to the client and copied into the
      record, however many bytes the client took.  A failed write ends it; a chunk that does not fit is
      copied past the end of the buffer, where this method stops.  `received` chunks were read, and the
      client holds what was taken of those that were written. */
  method Relay(record: Record, chunks: seq<seq<byte>>, writes: seq<int>)
    returns (sent: seq<byte>, outcome: Outcome, received: nat)
    requires WriteResults(chunks, writes)
    modifies record`responseLen, record`response
    ensures |record.response| == |old(record.response)| && received <= FirstError(writes)
    ensures sent == Accepted(chunks, Sizes(chunks, writes, received))
    ensures match outcome
            case Complete =>
              && received == |chunks| && record.Filled() && record.Stored() == Flatten(chunks)
            case WriteFailed =>
              && received == FirstError(writes) < |chunks| && |Flatten(chunks[..received])| <= |record.response|
            case Overran =>
              && 0 < received && |Flatten(chunks[..received - 1])| <= |record.response| < |Flatten(chunks[..received])|
    ensures outcome.Overran? <==> |record.response| < |Flatten(chunks[..FirstError(writes)])|
    ensures outcome.Complete? && (forall i :: 0 <= i < |chunks| ==> writes[i] == |chunks[i]|) ==>
              sent == Flatten(chunks)
  {
    sent, received := [], 0;
    var allBytesRead := 0;
    while received < |chunks|
      invariant received <= FirstError(writes)
      invariant allBytesRead == |Flatten(chunks[..received])| <= |record.response| == |old(record.response)|
      invariant record.response[..allBytesRead] == Flatten(chunks[..received])
      invariant sent == Accepted(chunks, Sizes(chunks, writes, received))
    {
      FlattenNext(chunks, received);
      if writes[received] == SEND_ERROR {
        outcome := WriteFailed;
        return;
      }
      AcceptedNext(chunks, writes, received);
      var chunk := chunks[received];
      sent := sent + chunk[..writes[received]];
      received := received + 1;
      if |record.response| < allBytesRead + |chunk| {
        FlattenPrefix(chunks, received, FirstError(writes));
        outcome := Overran;
        return;
      }
      AddResponse(record, chunk, allBytesRead);
      allBytesRead := allBytesRead + |chunk|;
    }
    assert chunks[..|chunks|] == chunks;
    AllTaken(chunks, writes);
    record.responseLen := allBytesRead;
    outcome := Complete;
  }

  /** The node at position `k` of the list, the head being position 0. */
  ghost function Node(head: Record, records: seq<Record>, k: nat): Record? {
    if k == 0 then head else if k <= |records| then records[k - 1] else null
  }

  ghost predicate Linked(head: Record, records: seq<Record>)
    reads head, records
  {
    && head !in records
    && (forall i, j :: 0 <= i < j < |records| ==> records[i] != records[j])
    && head.next == Node(head, records, 1)
    && (forall i {:trigger records[i].next} :: 0 <= i < |records| ==> records[i].next == Node(head, records, i + 2))
  }

  ghost predicate Stores(records: seq<Record>, entries: seq<Entry>, capacity: nat)
    reads records
  {
    && |records| == |entries|
    && (forall i :: 0 <= i < |records| ==> records[i].Filled() && records[i].responseLen <= capacity)
    && (forall i :: 0 <= i < |records| ==> entries[i] == Entry(records[i].request, records[i].Stored()))
  }

  /** `Unset` is a match with the request field of the dummy head, which the program never sets. */
  datatype Lookup = Hit(bytes: seq<byte>) | Miss | Unset

  /** What a lookup answers when the list stands for `table`. */
  function LookupIn(unset: nat, table: Table, key: nat): Lookup {
    if key == unset then Unset else if key in table then Hit(Replay(table[key])) else Miss
  }

  class Cache {
    const head: Record
    const capacity: nat               // CACHE_BUFFER_SIZE
    ghost var records: seq<Record>    // the list after the dummy head
    ghost var entries: seq<Entry>     // what the records hold
    ghost var table: Table            // what the list stands for
    ghost var freed: set<Record>

    /** Linked, live, keys pairwise distinct, and standing for `table`. */
    ghost predicate Valid()
      reads this, head, records
    {
      && Linked(head, records)
      && Stores(records, entries, capacity)
      && DistinctKeys(entries) && table == TableOf(entries)
      && (forall r :: r in records ==> r !in freed)
    }

    /** init_cache: the head's request is whatever malloc left there. */
    constructor (unset: nat, capacity: nat)
      ensures Valid() && this.capacity == capacity && head.request == unset
      ensures records == [] && table == map[] && freed == {}
      ensures fresh(head)
    {
      head := new Record(0);
      this.capacity := capacity;
      records, entries, table, freed := [], [], map[], {};
      new;
      head.request := unset;
    }

    /** The walk of find_in_cache: the first node, head included, whose request is `key`. */
    method Locate(key: nat) returns (found: Record?)
      requires Valid()
      ensures found == head <==> head.request == key
      ensures head.request != key ==> (found == null <==> key !in table)
      ensures found != null && found != head ==>
                && found in records && found.Filled() && found.responseLen <= capacity
                && key in table && found.Stored() == table[key]
    {
      TableHas(entries, key);
      var cur: Record? := head;
      ghost var k: nat := 0;
      while cur != null
        invariant k <= |records| + 1 && cur == Node(head, records, k)
        invariant 0 < k ==> head.request != key
        invariant forall i :: 0 <= i < k - 1 ==> entries[i].key != key
        decreases |records| + 1 - k
      {
        assert 0 < k ==> cur == records[k - 1] && entries[k - 1] == Entry(cur.request, cur.Stored());
        if cur.request == key {
          return cur;
        }
        cur := cur.next;
        k := k + 1;
      }
      found := null;
    }

    /** A hit copies the stored bytes with strncpy. */
    method FindInCache(req: seq<byte>, copy: array<byte>) returns (found: Lookup)
      requires Valid() && copy.Length == capacity
      modifies copy
      ensures found == LookupIn(head.request, table, HashOf(req))
    {
      var key := Hash(req);
      var cur := Locate(key);
      if cur == head {
        return Unset;
      }
      if cur == null {
        return Miss;
      }
      Strncpy(copy, cur.response, cur.responseLen);
      found := Hit(copy[..cur.responseLen]);
    }

    /** send_from_cache up to the write: looks up into a zeroed buffer. */
    method SendFromCache(req: seq<byte>) returns (found: Lookup)
      requires Valid()
      ensures found == LookupIn(head.request, table, HashOf(req))
    {
      var copy := new byte[capacity](_ => 0);
      found := FindInCache(req, copy);
    }

    /** The walk of push_record: the last node, unless one with the same key comes first. */
    method WalkToEnd(key: nat) returns (last: Record, duplicate: bool)
      requires Valid()
      ensures duplicate <==> key in table
      ensures !duplicate ==> last == Node(head, records, |records|)
    {
      TableHas(entries, key);
      last := head;
      ghost var k: nat := 0;
      while last.next != null
        invariant k <= |records| && last == Node(head, records, k)
        invariant forall i :: 0 <= i < k ==> entries[i].key != key
        decreases |records| - k
      {
        last := last.next;
        k := k + 1;
        assert last == records[k - 1] && entries[k - 1].key == last.request;
        if last.request == key {
          return last, true;
        }
      }
      duplicate := false;
    }

    /** delete_cache_record and free. */
    method Drop(record: Record)
      requires Valid() && record !in records
      modifies this`freed
      ensures Valid() && freed == old(freed) + {record}
    {
      freed := freed + {record};
    }

    method Link(last: Record, record: Record)
      requires Linked(head, records) && Stores(records, entries, capacity) && last == Node(head, records, |records|)
      requires record != head && record !in records && record.next == null
      requires record.Filled() && record.responseLen <= capacity
      modifies this`records, this`entries, last`next
      ensures Linked(head, records) && Stores(records, entries, capacity) && records == old(records) + [record]
      ensures entries == old(entries) + [Entry(record.request, record.Stored())]
    {
      last.next := record;
      records, entries := records + [record], entries + [Entry(record.request, record.Stored())];
    }

    method Append(last: Record, record: Record)
      requires Valid() && last == Node(head, records, |records|) && record.request !in table
      requires record != head && record !in records && record !in freed
      requires record.Filled() && record.next == null && |record.response| == capacity
      modifies this`records, this`entries, this`table, last`next
      ensures Valid() && records == old(records) + [record]
      ensures entries == old(entries) + [Entry(record.request, record.Stored())]
      ensures table == old(table)[record.request := record.Stored()]
    {
      OneMoreEntry(entries, Entry(record.request, record.Stored()));
      Link(last, record);
      table := table[record.request := record.Stored()];
    }

    /** Walks to the end and links the record, or frees it when its key is already there. */
    method PushRecord(record: Record)
      requires Valid() && record != head && record !in records && record !in freed
      requires record.Filled() && record.next == null && |record.response| == capacity
      modifies this`records, this`entries, this`table, this`freed, head`next, records`next
      ensures Valid()
      ensures record.request in old(table) ==>
                && records == old(records) && entries == old(entries) && table == old(table)
                && freed == old(freed) + {record}
      ensures record.request !in old(table) ==>
                && records == old(records) + [record] && freed == old(freed)
                && entries == old(entries) + [Entry(record.request, record.Stored())]
                && table == old(table)[record.request := record.Stored()]
    {
      var last, duplicate := WalkToEnd(record.request);
      if duplicate {
        Drop(record);
      } else {
        assert last == head || last in records;
        Append(last, record);
      }
    }

    /** A record with a response already in it, as a thread has it before push_record. */
    method FilledRecord(text: seq<byte>, response: seq<byte>) returns (record: Record)
      requires |response| <= capacity
      ensures fresh(record) && record.request == HashOf(text) && record.Filled() && record.Stored() == response
      ensures record.next == null && |record.response| == capacity
    {
      record := new Record(capacity);
      record.request := Hash(text);
      AddResponse(record, response, 0);
      record.responseLen := |response|;
    }

    /** push_record of a record that holds a whole response. */
    method PushResponse(text: seq<byte>, response: seq<byte>)
      requires Valid() && |response| <= capacity
      modifies this, head, records
      ensures Valid() && head.request == old(head.request) && table == Apply(old(table), Push(text, response))
      ensures entries ==
              if HashOf(text) in old(table) then old(entries) else old(entries) + [Entry(HashOf(text), response)]
      ensures forall r :: r in records ==> r in old(records) || fresh(r)
    {
      var record := FilledRecord(text, response);
      PushRecord(record);
    }

    method Perform(op: Op) returns (found: Lookup)
      requires Valid() && (op.Push? ==> |op.response| <= capacity)
      modifies this, head, records
      ensures Valid() && head.request == old(head.request) && table == Apply(old(table), op)
      ensures op.Find? ==> found == LookupIn(head.request, table, HashOf(op.text))
      ensures forall r :: r in records ==> r in old(records) || fresh(r)
    {
      match op
      case Find(text) =>
        found := SendFromCache(text);
      case Push(text, response) =>
        PushResponse(text, response);
        found := Miss;
    }

    /** Any sequence of lookups and pushes: each lookup answers from the first-push-wins map of the
        operations before it, and the list ends as the map of them all. */
    method Run(ops: seq<Op>) returns (found: seq<Lookup>)
      requires Valid() && forall i :: 0 <= i < |ops| && ops[i].Push? ==> |ops[i].response| <= capacity
      modifies this, head, records
      ensures Valid() && head.request == old(head.request)
      ensures table == CacheSpec.Run(old(table), ops) && |found| == |ops|
      ensures forall i :: 0 <= i < |ops| && ops[i].Find? ==>
                found[i] == LookupIn(head.request, CacheSpec.Run(old(table), ops[..i]), HashOf(ops[i].text))
      decreases |ops|
    {
      if ops == [] {
        return [];
      }
      var first := Perform(ops[0]);
      assert forall i :: 0 <= i < |records| ==> records[i] in old(records) || fresh(records[i]);
      var rest := Run(ops[1..]);
      found := [first] + rest;
      forall i | 0 < i < |ops|
        ensures CacheSpec.Run(old(table), ops[..i]) == CacheSpec.Run(Apply(old(table), ops[0]), ops[1..][..i - 1])
      {
        RunOfPrefix(old(table), ops, i);
      }
    }
  }
}
