/** How execute_client_request of semestr2/Task3/src/proxy.c cuts the host name out of a request. */
module ProxyHost {
  import opened Bytes
  import opened Wrappers

  const HOST: seq<byte> := [72, 111, 115, 116, 58]    // "Host:"
  const HOST_SIZE := 50
  const MAX_BUFFER_SIZE := 4096
  const CR: byte := 13

  predicate HostAt(text: seq<byte>, p: nat) {
    p + |HOST| <= |text| && text[p..p + |HOST|] == HOST
  }

  /** strstr(text + from, HOST). */
  function FindHost(text: seq<byte>, from: nat): Option<nat>
    decreases |text| - from
  {
    if |text| <= from then None else if HostAt(text, from) then Some(from) else FindHost(text, from + 1)
  }

  /** Where memccpy of at most `n` bytes from `from` on finds the carriage return. */
  function FindCr(text: seq<byte>, from: nat, n: nat): Option<nat>
    decreases n
  {
    if n == 0 || |text| <= from then None else if text[from] == CR then Some(from) else FindCr(text, from + 1, n - 1)
  }

  /** The host name can be cut out: without "Host:" the copy starts near address 0, and without a carriage
      return in time its result is NULL, or the copy runs into what lies after the request. */
  predicate HasHost(text: seq<byte>) {
    var p := FindHost(text, 0);
    p.Some? && FindCr(text, p.value + 6, HOST_SIZE).Some?
  }

  lemma {:induction false} FindHostIsFirst(text: seq<byte>, from: nat)
    ensures match FindHost(text, from)
            case Some(p) => from <= p && HostAt(text, p) && forall q :: from <= q < p ==> !HostAt(text, q)
            case None => forall q :: from <= q ==> !HostAt(text, q)
    decreases |text| - from
  {
    if from < |text| && !HostAt(text, from) {
      FindHostIsFirst(text, from + 1);
    }
  }

  lemma {:induction false} FindCrIsFirst(text: seq<byte>, from: nat, n: nat)
    ensures match FindCr(text, from, n)
            case Some(q) => from <= q < from + n && q < |text| && text[q] == CR
            case None => forall q :: from <= q < from + n && q < |text| ==> text[q] != CR
    decreases n
  {
    if n > 0 && from < |text| && text[from] != CR {
      FindCrIsFirst(text, from + 1, n - 1);
    }
  }

  /** The letters of "Host:" at position p. */
  predicate SpellsHost(text: seq<byte>, p: nat) {
    && p + 4 < |text| && text[p] == 'H' as byte && text[p + 1] == 'o' as byte && text[p + 2] == 's' as byte
    && text[p + 3] == 't' as byte && text[p + 4] == ':' as byte
  }

  lemma SpelledOut(text: seq<byte>, p: nat)
    ensures SpellsHost(text, p) <==> HostAt(text, p)
  {
    if p + 4 < |text| {
      assert text[p..p + 5] == [text[p], text[p + 1], text[p + 2], text[p + 3], text[p + 4]];
    }
  }

  /** A usable request has a carriage return within HOST_SIZE bytes after its first "Host: ". */
  lemma {:induction false} HasHostIff(text: seq<byte>)
    ensures HasHost(text) <==>
            exists p: nat, q: nat :: SpellsHost(text, p) && (forall r :: 0 <= r < p ==> !SpellsHost(text, r))
                                     && p + 6 <= q < p + 6 + 50 && q < |text| && text[q] == 13
  {
    FindHostIsFirst(text, 0);
    var f := FindHost(text, 0);
    if f.Some? {
      FindCrIsFirst(text, f.value + 6, HOST_SIZE);
    }
    forall p: nat
      ensures SpellsHost(text, p) <==> HostAt(text, p)
    {
      SpelledOut(text, p);
    }
    if p: nat, q: nat :| SpellsHost(text, p) && (forall r :: 0 <= r < p ==> !SpellsHost(text, r))
                         && p + 6 <= q < p + 6 + 50 && q < |text| && text[q] == 13 {
      assert f == Some(p);
    }
  }
}
