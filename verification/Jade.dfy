/** Reassembling what a Jade returns: the extended-data loop of `sign_tx` and the reading of one
    response from the serial stream. */
module Jade {
  import opened Wrappers
  import PsbtModel
  import Signatures

  type Byte = bv8

  datatype Error = Rpc | NoErrorOrResult | Transport | Malformed

  // ---------------------------------------------------------------- extended data

  /** A response as far as signing looks at it. */
  datatype Response = Response(error: bool, result: Option<seq<Byte>>, seqlen: Option<nat>, seqnum: Option<nat>)

  /** A follow-up request. */
  datatype Request = Request(seqnum: nat, seqlen: nat)

  /** The transport's answers to successive requests; an exhausted list is a transport error. */
  type Transcript = seq<Response>

  /** The remaining bytes, or the first error, and the requests made to get them. */
  function Collect(bytes: seq<Byte>, seqlen: nat, seqnum: nat, answers: Transcript): (Result<seq<Byte>, Error>, seq<Request>)
    decreases |answers|
  {
    if seqnum >= seqlen then (Ok(bytes), [])
    else
      var request := Request(seqnum + 1, seqlen);
      if answers == [] then (Err(Transport), [request])
      else
        var res := answers[0];
        if res.error then (Err(Rpc), [request])
        else if res.result.None? then (Err(NoErrorOrResult), [request])
        else if res.seqlen.None? || res.seqnum.None? then (Err(NoErrorOrResult), [request])
        else
          var (r, requests) := Collect(bytes + res.result.value, res.seqlen.value, res.seqnum.value, answers[1..]);
          (r, [request] + requests)
  }

  /** What the whole exchange yields. */
  function Exchange(answers: Transcript): (Result<seq<Byte>, Error>, seq<Request>) {
    if answers == [] then (Err(Transport), [])
    else
      var first := answers[0];
      if first.error then (Err(Rpc), [])
      else if first.result.None? then (Err(NoErrorOrResult), [])
      else if first.seqlen.Some? && first.seqnum.Some? && first.seqlen.value > 1 then
        Collect(first.result.value, first.seqlen.value, first.seqnum.value, answers[1..])
      else (Ok(first.result.value), [])
  }

  /** The loop that asks for the chunks still missing. */
  method FetchRest(bytes: seq<Byte>, len: nat, num: nat, answers: Transcript)
    returns (r: Result<seq<Byte>, Error>, requests: seq<Request>)
    ensures (r, requests) == Collect(bytes, len, num, answers)
  {
    var psbtBytes, seqlen, seqnum := bytes, len, num;
    requests := [];
    var next := 0;
    assert answers[0..] == answers;
    assert forall more: seq<Request> :: [] + more == more;
    while seqnum < seqlen
      invariant next <= |answers|
      invariant var (r', more) := Collect(psbtBytes, seqlen, seqnum, answers[next..]);
                Collect(bytes, len, num, answers) == (r', requests + more)
      decreases |answers| - next
    {
      ghost var rest := answers[next..];
      ghost var before := requests;
      var request := Request(seqnum + 1, seqlen);
      requests := requests + [request];
      assert forall more: seq<Request> :: before + ([request] + more) == requests + more;
      if next == |answers| {
        return Err(Transport), requests;
      }
      var res := answers[next];
      next := next + 1;
      assert rest[0] == res && rest[1..] == answers[next..];
      if res.error {
        return Err(Rpc), requests;
      }
      if res.result.None? {
        return Err(NoErrorOrResult), requests;
      }
      psbtBytes := psbtBytes + res.result.value;
      if res.seqlen.None? || res.seqnum.None? {
        return Err(NoErrorOrResult), requests;
      }
      seqlen, seqnum := res.seqlen.value, res.seqnum.value;
    }
    assert requests + [] == requests;
    return Ok(psbtBytes), requests;
  }

  /** Sign, fetch the rest of a long answer piece by piece, decode it and merge the signatures. */
  method SignTx(psbt: PsbtModel.Psbt, answers: Transcript, decode: seq<Byte> -> Option<seq<PsbtModel.Input>>)
    returns (r: Result<(), Error>, requests: seq<Request>)
    modifies psbt
    ensures requests == Exchange(answers).1
    ensures r.Ok? <==> Exchange(answers).0.Ok? && decode(Exchange(answers).0.value).Some?
    ensures r.Ok? ==>
              psbt.inputs == Signatures.Merge(old(psbt.inputs), decode(Exchange(answers).0.value).value)
    ensures r.Err? ==> psbt.inputs == old(psbt.inputs)
    ensures r.Err? ==> r.error == if Exchange(answers).0.Err? then Exchange(answers).0.error else Malformed
  {
    requests := [];
    if answers == [] {
      return Err(Transport), requests;
    }
    var first := answers[0];
    if first.error {
      return Err(Rpc), requests;
    }
    if first.result.None? {
      return Err(NoErrorOrResult), requests;
    }
    var psbtBytes := first.result.value;
    if first.seqlen.Some? && first.seqnum.Some? {
      var seqlen, seqnum := first.seqlen.value, first.seqnum.value;
      if seqlen > 1 {
        var rest: Result<seq<Byte>, Error>;
        rest, requests := FetchRest(psbtBytes, seqlen, seqnum, answers[1..]);
        if rest.Err? {
          return Err(rest.error), requests;
        }
        psbtBytes := rest.value;
      }
    }
    var signed := decode(psbtBytes);
    if signed.None? {
      return Err(Malformed), requests;
    }
    Signatures.MergeSignatures(psbt, signed.value);
    return Ok(()), requests;
  }

  function Concat(chunks: seq<seq<Byte>>): seq<Byte> {
    if chunks == [] then [] else chunks[0] + Concat(chunks[1..])
  }

  /** The answers of a device that splits its bytes into numbered chunks. */
  function Numbered(chunks: seq<seq<Byte>>): Transcript {
    seq(|chunks|, i requires 0 <= i < |chunks| => Response(false, Some(chunks[i]), Some(|chunks|), Some(i + 1)))
  }

  /** One request for each chunk after the first `k`. */
  function RequestsFrom(k: nat, n: nat): seq<Request>
    requires k <= n
  {
    seq(n - k, i requires 0 <= i => Request(k + i + 1, n))
  }

  lemma {:induction false} CollectChunks(bytes: seq<Byte>, chunks: seq<seq<Byte>>, k: nat, others: Transcript)
    requires k <= |chunks|
    ensures Collect(bytes, |chunks|, k, Numbered(chunks)[k..] + others) ==
            (Ok(bytes + Concat(chunks[k..])), RequestsFrom(k, |chunks|))
    decreases |chunks| - k
  {
    var answers := Numbered(chunks)[k..] + others;
    if k == |chunks| {
      assert chunks[k..] == [] && bytes + Concat(chunks[k..]) == bytes;
      assert RequestsFrom(k, |chunks|) == [];
    } else {
      assert answers[0] == Numbered(chunks)[k];
      assert answers[1..] == Numbered(chunks)[k + 1..] + others;
      CollectChunks(bytes + chunks[k], chunks, k + 1, others);
      assert chunks[k..][1..] == chunks[k + 1..];
      assert bytes + chunks[k] + Concat(chunks[k + 1..]) == bytes + Concat(chunks[k..]);
      assert [Request(k + 1, |chunks|)] + RequestsFrom(k + 1, |chunks|) == RequestsFrom(k, |chunks|);
    }
  }

  /** A device that sends n numbered chunks is asked exactly n - 1 times, in order, and its bytes are
      rebuilt in order, whatever else it would answer. */
  lemma ChunkedAnswerIsRebuilt(chunks: seq<seq<Byte>>, others: Transcript)
    requires |chunks| > 0
    ensures Exchange(Numbered(chunks) + others) == (Ok(Concat(chunks)), RequestsFrom(1, |chunks|))
  {
    var answers := Numbered(chunks) + others;
    assert answers[0] == Numbered(chunks)[0];
    assert Concat(chunks) == chunks[0] + Concat(chunks[1..]);
    if |chunks| == 1 {
      assert Concat(chunks) == chunks[0];
      assert RequestsFrom(1, 1) == [];
    } else {
      assert answers[1..] == Numbered(chunks)[1..] + others;
      CollectChunks(chunks[0], chunks, 1, others);
    }
  }

  /** An answer after which no further request is made: an error, a missing field or the last number. */
  predicate IsLast(res: Response) {
    || res.error || res.result.None? || res.seqlen.None? || res.seqnum.None?
    || res.seqnum.value >= res.seqlen.value
  }

  function FirstLast(answers: Transcript): (n: nat)
    ensures n <= |answers| && (n < |answers| ==> IsLast(answers[n]))
    ensures forall j | 0 <= j < n :: !IsLast(answers[j])
  {
    if answers == [] || IsLast(answers[0]) then 0 else FirstLast(answers[1..]) + 1
  }

  /** The bytes of these answers in their order. */
  function Payload(answers: Transcript): seq<Byte> {
    if answers == [] then [] else (if answers[0].result.Some? then answers[0].result.value else []) + Payload(answers[1..])
  }

  predicate IsComplete(res: Response) {
    !res.error && res.result.Some? && res.seqlen.Some? && res.seqnum.Some?
  }

  /** The loop makes one request more than there are answers before the first that is a last one.  If
      there is none, every answer is used up and one more request goes unanswered.  That last answer
      tells the outcome: all bytes up to its own, the device's error or a missing field. */
  lemma {:induction false} LoopEndsAtLast(bytes: seq<Byte>, seqlen: nat, seqnum: nat, answers: Transcript)
    requires seqnum < seqlen
    ensures var (r, requests) := Collect(bytes, seqlen, seqnum, answers);
            var n := FirstLast(answers);
            && |requests| == n + 1
            && (|requests| == |answers| + 1 <==> forall res | res in answers :: !IsLast(res))
            && r == (if n == |answers| then Err(Transport)
                     else if answers[n].error then Err(Rpc)
                     else if IsComplete(answers[n]) then Ok(bytes + Payload(answers[..n + 1]))
                     else Err(NoErrorOrResult))
    decreases |answers|
  {
    var n := FirstLast(answers);
    assert n < |answers| ==> answers[n] in answers;
    if answers != [] {
      var res := answers[0];
      if n < |answers| { assert answers[..n + 1][1..] == answers[1..][..n]; }
      if IsLast(res) {
        assert n == 0 && answers[..1] == [res];
        if IsComplete(res) { assert Payload([res]) == res.result.value + [] == res.result.value; }
      } else {
        LoopEndsAtLast(bytes + res.result.value, res.seqlen.value, res.seqnum.value, answers[1..]);
        if n < |answers| {
          assert bytes + Payload(answers[..n + 1]) == bytes + res.result.value + Payload(answers[1..][..n]);
        }
      }
    }
  }

  /** The first answer announces more than one chunk and is not the last. */
  predicate AsksForMore(first: Response) {
    IsComplete(first) && first.seqlen.value > 1 && first.seqnum.value < first.seqlen.value
  }

  /** The whole exchange.  Errors of the first answer end it at once; unless more is announced, as in the
      ordinary short answer without numbers, its bytes are all there is and nothing more is asked for;
      otherwise the first later answer that is a last one decides, and all bytes up to it are kept. */
  lemma ExchangeOutcome(answers: Transcript)
    requires answers != []
    ensures var (r, requests) := Exchange(answers);
            var first, n := answers[0], FirstLast(answers[1..]);
            if first.error then r == Err(Rpc) && requests == []
            else if first.result.None? then r == Err(NoErrorOrResult) && requests == []
            else if !AsksForMore(first) then r == Ok(first.result.value) && requests == []
            else
              && |requests| == n + 1
              && r == (if n == |answers| - 1 then Err(Transport)
                       else if answers[n + 1].error then Err(Rpc)
                       else if IsComplete(answers[n + 1]) then Ok(Payload(answers[..n + 2]))
                       else Err(NoErrorOrResult))
  {
    var first := answers[0];
    if AsksForMore(first) {
      LoopEndsAtLast(first.result.value, first.seqlen.value, first.seqnum.value, answers[1..]);
      var n := FirstLast(answers[1..]);
      if n < |answers[1..]| { assert answers[..n + 2][1..] == answers[1..][..n + 1]; }
    }
  }

  /** Every answer brings the number closer to the length. */
  predicate Advances(seqlen: nat, seqnum: nat, answers: Transcript)
    decreases |answers|
  {
    answers == [] || seqnum >= seqlen || answers[0].seqlen.None? || answers[0].seqnum.None? ||
    (answers[0].seqlen.value - answers[0].seqnum.value < seqlen - seqnum &&
     Advances(answers[0].seqlen.value, answers[0].seqnum.value, answers[1..]))
  }

  /** Then the distance between them bounds the number of requests. */
  lemma {:induction false} AdvancingDeviceIsBounded(bytes: seq<Byte>, seqlen: nat, seqnum: nat, answers: Transcript)
    requires Advances(seqlen, seqnum, answers)
    ensures |Collect(bytes, seqlen, seqnum, answers).1| <= if seqnum >= seqlen then 0 else seqlen - seqnum
    decreases |answers|
  {
    if seqnum < seqlen && answers != [] && answers[0].result.Some? && answers[0].seqlen.Some? && answers[0].seqnum.Some? {
      AdvancingDeviceIsBounded(bytes + answers[0].result.value, answers[0].seqlen.value, answers[0].seqnum.value, answers[1..]);
    }
  }

  /** A device that keeps repeating an unfinished number is asked as often as it answers: nothing in
      the loop ends the exchange. */
  lemma {:induction false} StuckDeviceIsAskedForever(bytes: seq<Byte>, stuck: Response, n: nat)
    requires !stuck.error && stuck.result.Some? && stuck.seqlen.Some? && stuck.seqnum.Some?
    requires stuck.seqnum.value < stuck.seqlen.value
    ensures var (r, requests) := Collect(bytes, stuck.seqlen.value, stuck.seqnum.value, seq(n, _ => stuck));
            r == Err(Transport) && |requests| == n + 1
    decreases n
  {
    var answers := seq(n, _ => stuck);
    if n > 0 {
      assert answers[1..] == seq(n - 1, _ => stuck);
      StuckDeviceIsAskedForever(bytes + stuck.result.value, stuck, n - 1);
    }
  }

  // ---------------------------------------------------------------- one response from the stream

  /** The outcome of one `read`: some bytes, none at the end of the stream, or an error. */
  datatype Read = Bytes(bytes: seq<Byte>) | Failed

  /** The response read after `buf`; when no more reads come the stream is silent and the timeout ends it. */
  function ReadOn<R>(buf: seq<Byte>, later: seq<Read>, decode: seq<Byte> -> Option<R>): Result<R, Error>
    decreases |later|
  {
    if later == [] || later[0] == Bytes([]) then
      match decode(buf)
      case Some(response) => Ok(response)
      case None => Err(NoErrorOrResult)
    else if later[0].Failed? then Err(Transport)
    else
      match decode(buf + later[0].bytes)
      case Some(response) => Ok(response)
      case None => ReadOn(buf + later[0].bytes, later[1..], decode)
  }

  /** Grow the buffer read by read until it decodes. */
  method ReadStream<R>(first: Read, later: seq<Read>, decode: seq<Byte> -> Option<R>) returns (r: Result<R, Error>)
    ensures first.Failed? ==> r == Err(Transport)
    ensures first.Bytes? && decode(first.bytes).Some? ==> r == Ok(decode(first.bytes).value)
    ensures first.Bytes? && decode(first.bytes).None? ==> r == ReadOn(first.bytes, later, decode)
  {
    if first.Failed? {
      return Err(Transport);
    }
    var buf := first.bytes;
    var response := decode(buf);
    if response.Some? {
      return Ok(response.value);
    }
    var n := 0;
    while n < |later|
      invariant 0 <= n <= |later|
      invariant ReadOn(buf, later[n..], decode) == ReadOn(first.bytes, later, decode)
    {
      var res := later[n];
      assert later[n..][1..] == later[n + 1..];
      n := n + 1;
      if res.Failed? {
        return Err(Transport);
      }
      if res.bytes == [] {
        break;
      }
      buf := buf + res.bytes;
      response := decode(buf);
      if response.Some? {
        return Ok(response.value);
      }
    }
    response := decode(buf);
    if response.Some? {
      return Ok(response.value);
    }
    return Err(NoErrorOrResult);
  }

  /** What the first and the later reads yield. */
  function ReadAll<R>(first: seq<Byte>, later: seq<Read>, decode: seq<Byte> -> Option<R>): Result<R, Error> {
    match decode(first)
    case Some(response) => Ok(response)
    case None => ReadOn(first, later, decode)
  }

  function AsReads(chunks: seq<seq<Byte>>): seq<Read> {
    seq(|chunks|, i requires 0 <= i < |chunks| => Bytes(chunks[i]))
  }

  /** The buffer after the first `n` of the chunks. */
  function BufferAt(buf: seq<Byte>, chunks: seq<seq<Byte>>, n: nat): seq<Byte>
    requires n <= |chunks|
  {
    buf + Concat(chunks[..n])
  }

  lemma BufferAfterOne(buf: seq<Byte>, chunks: seq<seq<Byte>>, n: nat)
    requires 0 < n <= |chunks|
    ensures BufferAt(buf, chunks, n) == BufferAt(buf + chunks[0], chunks[1..], n - 1)
  {
    assert chunks[..n][1..] == chunks[1..][..n - 1];
  }

  /** What ends the reading while nothing decodes: a failed read is a transport error; the end of the
      stream, an empty read or silence, leaves no result. */
  lemma {:induction false} ReadingEnds<R>(buf: seq<Byte>, chunks: seq<seq<Byte>>, more: seq<Read>, decode: seq<Byte> -> Option<R>)
    requires forall c | c in chunks :: c != []
    requires forall n | 0 <= n <= |chunks| :: decode(BufferAt(buf, chunks, n)).None?
    ensures more == [] || more[0] == Bytes([]) ==> ReadAll(buf, AsReads(chunks) + more, decode) == Err(NoErrorOrResult)
    ensures more != [] && more[0].Failed? ==> ReadAll(buf, AsReads(chunks) + more, decode) == Err(Transport)
    decreases |chunks|
  {
    assert BufferAt(buf, chunks, 0) == buf;
    if chunks == [] {
      assert AsReads(chunks) + more == more;
    } else {
      assert chunks[0] in chunks;
      assert (AsReads(chunks) + more)[1..] == AsReads(chunks[1..]) + more;
      forall n | 0 <= n <= |chunks[1..]| ensures decode(BufferAt(buf + chunks[0], chunks[1..], n)).None? {
        BufferAfterOne(buf, chunks, n + 1);
      }
      assert forall c | c in chunks[1..] :: c in chunks;
      ReadingEnds(buf + chunks[0], chunks[1..], more, decode);
    }
  }

  /** The reading stops at the first read after which the buffer decodes, whatever would come later. */
  lemma {:induction false} ReadingStops<R>(buf: seq<Byte>, chunks: seq<seq<Byte>>, more: seq<Read>, decode: seq<Byte> -> Option<R>)
    requires forall c | c in chunks :: c != []
    requires decode(BufferAt(buf, chunks, |chunks|)).Some?
    requires forall n | 0 <= n < |chunks| :: decode(BufferAt(buf, chunks, n)).None?
    ensures ReadAll(buf, AsReads(chunks) + more, decode) == Ok(decode(BufferAt(buf, chunks, |chunks|)).value)
    decreases |chunks|
  {
    assert BufferAt(buf, chunks, 0) == buf;
    if chunks != [] {
      assert chunks[0] in chunks && decode(BufferAt(buf, chunks, 0)).None?;
      assert (AsReads(chunks) + more)[1..] == AsReads(chunks[1..]) + more;
      BufferAfterOne(buf, chunks, |chunks|);
      forall n | 0 <= n < |chunks[1..]| ensures decode(BufferAt(buf + chunks[0], chunks[1..], n)).None? {
        BufferAfterOne(buf, chunks, n + 1);
      }
      assert forall c | c in chunks[1..] :: c in chunks;
      ReadingStops(buf + chunks[0], chunks[1..], more, decode);
    }
  }

  /** Among the prefixes of a stream only `e` decodes. */
  ghost predicate OnlyDecodes<R>(e: seq<Byte>, decode: seq<Byte> -> Option<R>) {
    decode(e).Some? && forall x | x <= e || e <= x :: decode(x).Some? ==> x == e
  }

  /** Some read after `buf` ends where `e` ends. */
  ghost predicate HasBoundary(buf: seq<Byte>, chunks: seq<seq<Byte>>, e: seq<Byte>) {
    exists k :: 0 <= k <= |chunks| && buf + Concat(chunks[..k]) == e
  }

  lemma BoundaryStep(buf: seq<Byte>, chunks: seq<seq<Byte>>, e: seq<Byte>)
    requires chunks != []
    ensures HasBoundary(buf, chunks, e) <==> buf == e || HasBoundary(buf + chunks[0], chunks[1..], e)
  {
    var next, rest := buf + chunks[0], chunks[1..];
    assert buf + Concat(chunks[..0]) == buf;
    forall k | 1 <= k <= |chunks| ensures buf + Concat(chunks[..k]) == next + Concat(rest[..k - 1]) {
      assert chunks[..k][1..] == rest[..k - 1];
    }
    if k :| 0 <= k <= |rest| && next + Concat(rest[..k]) == e {
      assert buf + Concat(chunks[..k + 1]) == next + Concat(rest[..k + 1 - 1]);
    }
  }

  lemma PrefixesMeet(a: seq<Byte>, b: seq<Byte>, e: seq<Byte>)
    requires a <= b && (b <= e || e <= b)
    ensures a <= e || e <= a
  {}

  lemma {:induction false} ReadOnBoundary<R>(buf: seq<Byte>, chunks: seq<seq<Byte>>, e: seq<Byte>, decode: seq<Byte> -> Option<R>)
    requires OnlyDecodes(e, decode) && (forall c | c in chunks :: c != []) && buf != e
    requires var all := buf + Concat(chunks); all <= e || e <= all
    ensures ReadOn(buf, AsReads(chunks), decode) ==
            if HasBoundary(buf, chunks, e) then Ok(decode(e).value) else Err(NoErrorOrResult)
    decreases |chunks|
  {
    var all := buf + Concat(chunks);
    if chunks == [] {
      assert forall k | 0 <= k <= |chunks| :: buf + Concat(chunks[..k]) == buf;
    } else {
      var next, rest := buf + chunks[0], chunks[1..];
      assert next + Concat(rest) == all;
      PrefixesMeet(next, all, e);
      assert AsReads(chunks)[1..] == AsReads(rest) && chunks[0] in chunks;
      assert forall c | c in rest :: c in chunks;
      BoundaryStep(buf, chunks, e);
      if next == e {
        assert next + Concat(rest[..0]) == e;
      } else {
        ReadOnBoundary(next, rest, e, decode);
      }
    }
  }

  /** When neither a timeout, an error nor the end of the stream intervenes, the response is returned
      exactly when some read ends where its encoding ends; otherwise there is none. */
  lemma ReadStreamNeedsBoundary<R>(chunks: seq<seq<Byte>>, e: seq<Byte>, decode: seq<Byte> -> Option<R>)
    requires |chunks| > 0 && (forall c | c in chunks :: c != []) && OnlyDecodes(e, decode)
    requires Concat(chunks) <= e || e <= Concat(chunks)
    ensures ReadAll(chunks[0], AsReads(chunks[1..]), decode) ==
            if HasBoundary(chunks[0], chunks[1..], e) then Ok(decode(e).value) else Err(NoErrorOrResult)
  {
    var first, rest := chunks[0], chunks[1..];
    var all := Concat(chunks);
    assert all == first + Concat(rest);
    PrefixesMeet(first, all, e);
    if first == e {
      assert first + Concat(rest[..0]) == e;
    } else {
      assert decode(first).None?;
      assert forall c | c in rest :: c in chunks;
      ReadOnBoundary(first, rest, e, decode);
    }
  }

  /** Every way of splitting an encoding into reads yields the same response. */
  lemma ChunkingDoesNotMatter<R>(chunks: seq<seq<Byte>>, e: seq<Byte>, decode: seq<Byte> -> Option<R>)
    requires |chunks| > 0 && (forall c | c in chunks :: c != []) && OnlyDecodes(e, decode) && Concat(chunks) == e
    ensures ReadAll(chunks[0], AsReads(chunks[1..]), decode) == Ok(decode(e).value)
  {
    ReadStreamNeedsBoundary(chunks, e, decode);
    var rest := chunks[1..];
    assert rest[..|rest|] == rest;
  }
}
