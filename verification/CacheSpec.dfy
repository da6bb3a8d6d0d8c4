/** What the proxy cache of semestr2/Task3 promises, apart from its list: the first push of a key wins. */
module CacheSpec {
  import opened Bytes
  import opened Sums

  // ---------------------------------------------------------------- the key

  const WORD := 0x1_0000_0000_0000_0000    // unsigned long

  /** A plain char is signed, so a byte above 127 is sign-extended before it is added. */
  function Signed(b: byte): int {
    if b < 128 then b as int else b as int - 256
  }

  /** hash * 33 + c, in 64 bits. */
  function HashOf(s: seq<byte>): nat {
    if s == [] then 0 else (33 * HashOf(s[..|s| - 1]) + Signed(s[|s| - 1])) % WORD
  }

  lemma {:induction false} SameHashSameSuffix(a: seq<byte>, b: seq<byte>, s: seq<byte>)
    requires HashOf(a) == HashOf(b)
    ensures HashOf(a + s) == HashOf(b + s)
  {
    if s == [] {
      assert a + s == a && b + s == b;
    } else {
      var init := s[..|s| - 1];
      SameHashSameSuffix(a, b, init);
      assert (a + s)[..|a + s| - 1] == a + init && (b + s)[..|b + s| - 1] == b + init;
    }
  }

  lemma MulMod(h: nat, c: int, d: int)
    ensures (33 * ((33 * h + c) % WORD) + d) % WORD == (33 * (33 * h + c) + d) % WORD
  {
  }

  /** 33 to the power of n. */
  function Power(n: nat): nat {
    if n == 0 then 1 else 33 * Power(n - 1)
  }

  /** The terms of the key: each byte, as a signed char, times a power of 33 given by what follows it. */
  function Terms(s: seq<byte>): (ts: seq<int>)
    ensures |ts| == |s|
  {
    seq(|s|, i requires 0 <= i < |s| =>
      (if s[i] < 128 then s[i] as int else s[i] as int - 256) * Power(|s| - 1 - i))
  }

  lemma {:induction false} SumAppend(xs: seq<int>, x: int)
    ensures Sum(xs + [x]) == Sum(xs) + x
  {
    if xs == [] {
      assert xs + [x] == [x];
    } else {
      assert (xs + [x])[1..] == xs[1..] + [x];
      SumAppend(xs[1..], x);
    }
  }

  lemma {:induction false} SumTimes33(xs: seq<int>, ys: seq<int>)
    requires |xs| == |ys| && forall i :: 0 <= i < |xs| ==> ys[i] == 33 * xs[i]
    ensures Sum(ys) == 33 * Sum(xs)
  {
    if xs != [] {
      SumTimes33(xs[1..], ys[1..]);
    }
  }

  lemma ScaledTerm(c: int, n: nat)
    ensures c * Power(n + 1) == 33 * (c * Power(n))
  {
    assert Power(n + 1) == 33 * Power(n);
  }

  lemma {:induction false} TermsAppend(s: seq<byte>, b: byte)
    ensures Sum(Terms(s + [b])) == 33 * Sum(Terms(s)) + if b < 128 then b as int else b as int - 256
  {
    var ts := Terms(s + [b]);
    forall i | 0 <= i < |s|
      ensures ts[i] == 33 * Terms(s)[i]
    {
      ScaledTerm(if s[i] < 128 then s[i] as int else s[i] as int - 256, |s| - 1 - i);
    }
    SumTimes33(Terms(s), ts[..|s|]);
    assert ts[|s|] == (if b < 128 then b as int else b as int - 256) * Power(0) && Power(0) == 1;
    assert ts == ts[..|s|] + [ts[|s|]];
    SumAppend(ts[..|s|], ts[|s|]);
  }

  lemma ModStep(h: int, x: int, c: int)
    requires h == x % 0x1_0000_0000_0000_0000
    ensures (33 * h + c) % 0x1_0000_0000_0000_0000 == (33 * x + c) % 0x1_0000_0000_0000_0000
  {
    var q := x / 0x1_0000_0000_0000_0000;
    assert 33 * x + c == 33 * h + c + 0x1_0000_0000_0000_0000 * (33 * q);
  }

  /** What the key is: the signed bytes of the text as the digits of a number to the base 33, in 64 bits. */
  lemma {:induction false} HashIsBase33(s: seq<byte>)
    ensures HashOf(s) == Sum(Terms(s)) % 0x1_0000_0000_0000_0000
  {
    if s != [] {
      var init := s[..|s| - 1];
      HashIsBase33(init);
      assert s == init + [s[|s| - 1]];
      TermsAppend(init, s[|s| - 1]);
      ModStep(HashOf(init), Sum(Terms(init)), Signed(s[|s| - 1]));
    }
  }

  lemma CloseNumbers(x: int, y: int)
    requires x % WORD == y % WORD && -WORD < x - y < WORD
    ensures x == y
  {
    assert x - y == WORD * (x / WORD - y / WORD);
  }

  /** Two texts that differ only in their last byte have different keys. */
  lemma {:induction false} LastByteCounts(s: seq<byte>, a: byte, b: byte)
    requires a != b
    ensures HashOf(s + [a]) != HashOf(s + [b])
  {
    assert (s + [a])[..|s|] == s && (s + [b])[..|s|] == s;
    var x, y := 33 * HashOf(s) + Signed(a), 33 * HashOf(s) + Signed(b);
    if x % WORD == y % WORD {
      CloseNumbers(x, y);
    }
  }

  /** The key does not identify the request: "ab" may be exchanged for "bA" anywhere inside it. */
  lemma {:induction false} CollidingRequests(prefix: seq<byte>, suffix: seq<byte>)
    ensures prefix + [97, 98] + suffix != prefix + [98, 65] + suffix
    ensures HashOf(prefix + [97, 98] + suffix) == HashOf(prefix + [98, 65] + suffix)
  {
    var h, a, b := HashOf(prefix), prefix + [97, 98], prefix + [98, 65];
    assert a[..|a| - 1] == prefix + [97] && b[..|b| - 1] == prefix + [98];
    assert (prefix + [97])[..|prefix|] == prefix && (prefix + [98])[..|prefix|] == prefix;
    MulMod(h, 97, 98);
    MulMod(h, 98, 65);
    SameHashSameSuffix(a, b, suffix);
    assert (a + suffix)[|prefix|] != (b + suffix)[|prefix|];
  }

  // ---------------------------------------------------------------- finds and pushes

  /** A request is looked up, or a response to it is cached, under the hash of its text. */
  datatype Op = Find(text: seq<byte>) | Push(text: seq<byte>, response: seq<byte>)

  type Table = map<nat, seq<byte>>

  function Apply(m: Table, op: Op): Table {
    match op
    case Find(_) => m
    case Push(text, r) => if HashOf(text) in m then m else m[HashOf(text) := r]
  }

  function Run(m: Table, ops: seq<Op>): Table
    decreases |ops|
  {
    if ops == [] then m else Run(Apply(m, ops[0]), ops[1..])
  }

  predicate Pushes(op: Op, k: nat) {
    op.Push? && HashOf(op.text) == k
  }

  predicate IsFirstPush(ops: seq<Op>, k: nat, i: nat) {
    && i < |ops| && Pushes(ops[i], k)
    && forall j :: 0 <= j < i ==> !Pushes(ops[j], k)
  }

  /** After any run of finds and pushes a key has the response it had before, or else the one pushed
      first, and it is absent exactly when nobody ever pushed it. */
  lemma {:induction false} FirstPushWins(m: Table, ops: seq<Op>, k: nat)
    ensures k in m ==> k in Run(m, ops) && Run(m, ops)[k] == m[k]
    ensures k !in m ==> (k in Run(m, ops) <==> exists i: nat :: IsFirstPush(ops, k, i))
    ensures forall i: nat :: k !in m && IsFirstPush(ops, k, i) ==> k in Run(m, ops) && Run(m, ops)[k] == ops[i].response
    decreases |ops|
  {
    if ops != [] {
      var rest := ops[1..];
      FirstPushWins(Apply(m, ops[0]), rest, k);
      forall i: nat | IsFirstPush(ops, k, i) && i > 0
        ensures IsFirstPush(rest, k, i - 1)
      {
        assert forall j :: 0 <= j < i - 1 ==> rest[j] == ops[j + 1];
      }
      forall i: nat | IsFirstPush(rest, k, i) && !Pushes(ops[0], k)
        ensures IsFirstPush(ops, k, i + 1)
      {
        assert forall j :: 0 < j < i + 1 ==> ops[j] == rest[j - 1];
      }
      if Pushes(ops[0], k) {
        assert IsFirstPush(ops, k, 0);
      }
    }
  }

  lemma {:induction false} OneMoreOp(m: Table, ops: seq<Op>, op: Op)
    ensures Run(m, ops + [op]) == Apply(Run(m, ops), op)
    decreases |ops|
  {
    if ops == [] {
      assert ops + [op] == [op];
      assert Run(Apply(m, op), [op][1..]) == Apply(m, op);
    } else {
      assert (ops + [op])[1..] == ops[1..] + [op];
      OneMoreOp(Apply(m, ops[0]), ops[1..], op);
    }
  }

  lemma RunOfPrefix(m: Table, ops: seq<Op>, i: nat)
    requires 0 < i <= |ops|
    ensures Run(m, ops[..i]) == Run(Apply(m, ops[0]), ops[1..][..i - 1])
  {
    assert ops[..i][1..] == ops[1..][..i - 1];
  }

  // ---------------------------------------------------------------- a list of entries as a table

  datatype Entry = Entry(key: nat, response: seq<byte>)

  function TableOf(es: seq<Entry>): Table {
    if es == [] then map[] else TableOf(es[..|es| - 1])[es[|es| - 1].key := es[|es| - 1].response]
  }

  ghost predicate DistinctKeys(es: seq<Entry>) {
    forall i, j :: 0 <= i < j < |es| ==> es[i].key != es[j].key
  }

  /** The list and the table have the same keys, and with distinct keys the same responses. */
  lemma {:induction false} TableHas(es: seq<Entry>, k: nat)
    ensures k in TableOf(es) <==> exists i :: 0 <= i < |es| && es[i].key == k
    ensures DistinctKeys(es) ==>
              forall i :: 0 <= i < |es| && es[i].key == k ==> k in TableOf(es) && TableOf(es)[k] == es[i].response
  {
    if es != [] {
      var init := es[..|es| - 1];
      TableHas(init, k);
      assert forall i :: 0 <= i < |init| ==> init[i] == es[i];
      if k in TableOf(es) {
        if es[|es| - 1].key != k {
          var i :| 0 <= i < |init| && init[i].key == k;
          assert es[i].key == k;
        }
      }
    }
  }

  lemma OneMoreEntry(es: seq<Entry>, e: Entry)
    requires DistinctKeys(es) && e.key !in TableOf(es)
    ensures DistinctKeys(es + [e]) && TableOf(es + [e]) == TableOf(es)[e.key := e.response]
  {
    TableHas(es, e.key);
    assert (es + [e])[..|es|] == es;
  }

  // ---------------------------------------------------------------- chunks

  function Flatten(chunks: seq<seq<byte>>): seq<byte> {
    if chunks == [] then [] else Flatten(chunks[..|chunks| - 1]) + chunks[|chunks| - 1]
  }

  lemma FlattenNext(chunks: seq<seq<byte>>, k: nat)
    requires k < |chunks|
    ensures Flatten(chunks[..k + 1]) == Flatten(chunks[..k]) + chunks[k]
  {
    assert chunks[..k + 1][..k] == chunks[..k];
  }

  lemma {:induction false} FlattenMonotone(chunks: seq<seq<byte>>, k: nat)
    requires k <= |chunks|
    ensures |Flatten(chunks[..k])| <= |Flatten(chunks)|
  {
    if k < |chunks| {
      FlattenMonotone(chunks[..|chunks| - 1], k);
      assert chunks[..|chunks| - 1][..k] == chunks[..k];
    } else {
      assert chunks[..k] == chunks;
    }
  }

  lemma FlattenPrefix(chunks: seq<seq<byte>>, i: nat, k: nat)
    requires i <= k <= |chunks|
    ensures |Flatten(chunks[..i])| <= |Flatten(chunks[..k])|
  {
    FlattenMonotone(chunks[..k], i);
    assert chunks[..k][..i] == chunks[..i];
  }

  /** `taken[i]` bytes of chunk i were written. */
  predicate Takes(chunks: seq<seq<byte>>, taken: seq<nat>) {
    |taken| <= |chunks| && forall i :: 0 <= i < |taken| ==> taken[i] <= |chunks[i]|
  }

  /** What arrives when only that much of each chunk is written. */
  function Accepted(chunks: seq<seq<byte>>, taken: seq<nat>): seq<byte>
    requires Takes(chunks, taken)
  {
    var n := |taken|;
    if n == 0 then [] else Accepted(chunks, taken[..n - 1]) + chunks[n - 1][..taken[n - 1]]
  }

  lemma {:induction false} FullWritesDeliverAll(chunks: seq<seq<byte>>, taken: seq<nat>)
    requires Takes(chunks, taken) && forall i :: 0 <= i < |taken| ==> taken[i] == |chunks[i]|
    ensures Accepted(chunks, taken) == Flatten(chunks[..|taken|])
  {
    var n := |taken|;
    if n > 0 {
      FullWritesDeliverAll(chunks, taken[..n - 1]);
      FlattenNext(chunks, n - 1);
    }
  }

  // ---------------------------------------------------------------- replaying a response

  /** What strncpy makes of `bs`: the bytes before the first NUL, and zeros from there on. */
  function Replay(bs: seq<byte>): (r: seq<byte>)
    ensures |r| == |bs|
  {
    if bs == [] then [] else if bs[0] == 0 then seq(|bs|, _ => 0) else [bs[0]] + Replay(bs[1..])
  }

  /** Where Replay puts each byte: the position decides, not the recursion. */
  lemma {:induction false} ReplayAt(bs: seq<byte>, j: nat)
    requires j < |bs|
    ensures Replay(bs)[j] == if (exists i :: 0 <= i <= j && bs[i] == 0) then 0 else bs[j]
  {
    if bs[0] != 0 && j > 0 {
      ReplayAt(bs[1..], j - 1);
      if i :| 0 <= i <= j && bs[i] == 0 {
        assert bs[1..][i - 1] == 0;
      }
      if i :| 0 <= i <= j - 1 && bs[1..][i] == 0 {
        assert bs[i + 1] == 0;
      }
    }
  }

  /** A cached response is replayed exactly when nothing but NULs follows its first NUL. */
  lemma {:induction false} ReplayExactIff(bs: seq<byte>)
    ensures Replay(bs) == bs <==> forall i, j :: 0 <= i < j < |bs| && bs[i] == 0 ==> bs[j] == 0
  {
    forall j | 0 <= j < |bs|
      ensures Replay(bs)[j] == if (exists i :: 0 <= i <= j && bs[i] == 0) then 0 else bs[j]
    {
      ReplayAt(bs, j);
    }
  }
}
