/** The byte-counting relay loop: one reused buffer, any pattern of reads, short writes and errors. */
module RelayCopy {
  import opened Text
  import opened Bytes
  import opened RegistryModel

  const BUFFER := 32 * 1024

  datatype Error = Eof | ShortWrite | Failed(code: nat)

  /** What one call of Read yields: some bytes, an error, or both. */
  datatype ReadStep = ReadStep(data: seq<byte>, err: Option<Error>)

  /** What one call of Write does: how many bytes it takes at most, and the error it reports. */
  datatype WriteStep = WriteStep(limit: nat, err: Option<Error>)

  ghost predicate FitsBuffer(input: seq<ReadStep>) {
    forall i | 0 <= i < |input| :: |input[i].data| <= BUFFER
  }

  class Source {
    var input: seq<ReadStep>

    constructor (input: seq<ReadStep>)
      ensures this.input == input
    {
      this.input := input;
    }

    /** Fills the front of the buffer; past the script the source is at its end. */
    method Read(buf: array<byte>) returns (n: nat, err: Option<Error>)
      requires FitsBuffer(input) && buf.Length == BUFFER
      modifies this, buf
      ensures old(input) == [] ==> n == 0 && err == Some(Eof) && input == []
      ensures old(input) != [] ==>
                && n == |old(input)[0].data| && err == old(input)[0].err && input == old(input)[1..]
                && buf[..n] == old(input)[0].data
    {
      if input == [] {
        return 0, Some(Eof);
      }
      var step := input[0];
      input := input[1..];
      n, err := |step.data|, step.err;
      for i := 0 to n
        invariant buf[..i] == step.data[..i] && input == old(input)[1..]
      {
        buf[i] := step.data[i];
      }
    }
  }

  function Taken(w: WriteStep, n: nat): nat {
    if w.limit < n then w.limit else n
  }

  class Sink {
    var writes: seq<WriteStep>
    var received: seq<byte>

    constructor (writes: seq<WriteStep>)
      ensures this.writes == writes && received == []
    {
      this.writes, received := writes, [];
    }

    /** Takes a prefix of the bytes; past the script every write is taken whole. */
    method Write(chunk: seq<byte>) returns (n: nat, err: Option<Error>)
      modifies this
      ensures var w := NextWrite(old(writes), |chunk|);
              n == Taken(w, |chunk|) && err == w.err && writes == RestWrites(old(writes))
      ensures n <= |chunk| && received == old(received) + chunk[..n]
    {
      var w := NextWrite(writes, |chunk|);
      writes := RestWrites(writes);
      n, err := Taken(w, |chunk|), w.err;
      received := received + chunk[..n];
    }
  }

  function NextWrite(writes: seq<WriteStep>, n: nat): WriteStep {
    if writes == [] then WriteStep(n, None) else writes[0]
  }

  function RestWrites(writes: seq<WriteStep>): seq<WriteStep> {
    if writes == [] then [] else writes[1..]
  }

  // ---- What a copy does ----

  datatype Copied = Copied(sent: seq<byte>, adds: seq<nat>, err: Error)

  /** One turn of the loop: what it sends and counts, and the error it stops with, if any. */
  datatype Turn = Turn(sent: seq<byte>, adds: seq<nat>, stop: Option<Error>)

  function OneTurn(r: ReadStep, writes: seq<WriteStep>): Turn {
    if r.data == [] then Turn([], [], r.err)
    else
      var w := NextWrite(writes, |r.data|);
      var n := Taken(w, |r.data|);
      Turn(r.data[..n], if n > 0 then [n] else [],
           if w.err.Some? then w.err else if n != |r.data| then Some(ShortWrite) else r.err)
  }

  function WritesAfter(r: ReadStep, writes: seq<WriteStep>): seq<WriteStep> {
    if r.data == [] then writes else RestWrites(writes)
  }

  function TurnOf(input: seq<ReadStep>, writes: seq<WriteStep>): Turn {
    if input == [] then Turn([], [], Some(Eof)) else OneTurn(input[0], writes)
  }

  function Copy(input: seq<ReadStep>, writes: seq<WriteStep>): Copied {
    var t := TurnOf(input, writes);
    if t.stop.Some? then Copied(t.sent, t.adds, t.stop.value)
    else
      var more := Copy(input[1..], WritesAfter(input[0], writes));
      Copied(t.sent + more.sent, t.adds + more.adds, more.err)
  }

  /** After some turns: what was sent and counted so far, followed by the rest, is the whole copy. */
  ghost predicate SoFar(whole: Copied, sent: seq<byte>, adds: seq<nat>, input: seq<ReadStep>, writes: seq<WriteStep>) {
    var more := Copy(input, writes);
    whole == Copied(sent + more.sent, adds + more.adds, more.err)
  }

  lemma Begin(input: seq<ReadStep>, writes: seq<WriteStep>)
    ensures SoFar(Copy(input, writes), [], [], input, writes)
  {
    var c := Copy(input, writes);
    assert [] + c.sent == c.sent && [] + c.adds == c.adds;
  }

  lemma TakeTurn(whole: Copied, sent: seq<byte>, adds: seq<nat>, input: seq<ReadStep>, writes: seq<WriteStep>)
    requires SoFar(whole, sent, adds, input, writes)
    ensures var t := TurnOf(input, writes);
            if t.stop.Some? then whole == Copied(sent + t.sent, adds + t.adds, t.stop.value)
            else input != [] && SoFar(whole, sent + t.sent, adds + t.adds, input[1..], WritesAfter(input[0], writes))
  {
    var t := TurnOf(input, writes);
    if t.stop.None? {
      var more := Copy(input[1..], WritesAfter(input[0], writes));
      assert sent + (t.sent + more.sent) == (sent + t.sent) + more.sent;
      assert adds + (t.adds + more.adds) == (adds + t.adds) + more.adds;
    }
  }

  function Sum(adds: seq<nat>): nat {
    if adds == [] then 0 else adds[0] + Sum(adds[1..])
  }

  lemma {:induction false} SumAppend(a: seq<nat>, b: seq<nat>)
    ensures Sum(a + b) == Sum(a) + Sum(b)
  {
    if a == [] {
      assert a + b == b;
    } else {
      assert (a + b)[1..] == a[1..] + b;
      SumAppend(a[1..], b);
    }
  }

  /** Everything the source yields up to its first error. */
  function SourceBytes(input: seq<ReadStep>): seq<byte> {
    if input == [] then []
    else if input[0].err.Some? then input[0].data
    else input[0].data + SourceBytes(input[1..])
  }

  function SourceError(input: seq<ReadStep>): Error {
    if input == [] then Eof
    else if input[0].err.Some? then input[0].err.value
    else SourceError(input[1..])
  }

  /** The write of this turn, if there is one, takes its whole chunk and reports no error. */
  predicate TurnTaken(r: ReadStep, writes: seq<WriteStep>) {
    var w := NextWrite(writes, |r.data|);
    r.data == [] || (w.err.None? && Taken(w, |r.data|) == |r.data|)
  }

  predicate AllTaken(input: seq<ReadStep>, writes: seq<WriteStep>) {
    input == [] || (TurnTaken(input[0], writes)
        && (input[0].err.Some? || AllTaken(input[1..], WritesAfter(input[0], writes))))
  }

  lemma TurnFacts(r: ReadStep, writes: seq<WriteStep>)
    ensures var t := OneTurn(r, writes);
            && t.sent <= r.data && Sum(t.adds) == |t.sent|
            && (forall i | 0 <= i < |t.adds| :: t.adds[i] > 0)
            && (TurnTaken(r, writes) ==> t.sent == r.data && t.stop == r.err)
            && (!TurnTaken(r, writes) ==>
                t.stop == Some(ShortWrite) || (writes != [] && t.stop.Some? && t.stop == writes[0].err))
  {
  }

  /** CONSERVATION. For every pattern of reads, short writes and errors, the bytes sent are an exact prefix of
      the source's bytes and the counter was passed exactly their number. When every write was taken the copy
      is complete and ends with the source's own error; otherwise it ends with a write's error. */
  lemma {:induction false} CopyConserves(input: seq<ReadStep>, writes: seq<WriteStep>)
    ensures var c := Copy(input, writes);
            && c.sent <= SourceBytes(input)
            && Sum(c.adds) == |c.sent|
            && (AllTaken(input, writes) ==> c.sent == SourceBytes(input) && c.err == SourceError(input))
            && (!AllTaken(input, writes) ==>
                c.err == ShortWrite || exists i | 0 <= i < |writes| :: writes[i].err == Some(c.err))
  {
    if input != [] {
      var r, rest, after := input[0], input[1..], WritesAfter(input[0], writes);
      var t := OneTurn(r, writes);
      TurnFacts(r, writes);
      if t.stop.None? {
        CopyConserves(rest, after);
        var more := Copy(rest, after);
        SumAppend(t.adds, more.adds);
        if !AllTaken(rest, after) && more.err != ShortWrite {
          var i :| 0 <= i < |after| && after[i].err == Some(more.err);
          assert writes[if r.data == [] then i else i + 1].err == Some(more.err);
        }
      }
    }
  }

  /** The bytes of the first k reads. */
  function BytesOf(input: seq<ReadStep>, k: nat): seq<byte>
    requires k <= |input|
  {
    if k == 0 then [] else input[0].data + BytesOf(input[1..], k - 1)
  }

  /** The writes still to come at turn k. */
  function WritesAt(input: seq<ReadStep>, writes: seq<WriteStep>, k: nat): seq<WriteStep>
    requires k <= |input|
  {
    if k == 0 then writes else WritesAt(input[1..], WritesAfter(input[0], writes), k - 1)
  }

  /** Turn k is the first whose write is not taken whole and without error; no read failed before. */
  ghost predicate FirstRefused(input: seq<ReadStep>, writes: seq<WriteStep>, k: nat) {
    && k < |input| && !TurnTaken(input[k], WritesAt(input, writes, k))
    && forall j | 0 <= j < k :: input[j].err.None? && TurnTaken(input[j], WritesAt(input, writes, j))
  }

  lemma RefusedLater(input: seq<ReadStep>, writes: seq<WriteStep>, k: nat)
    requires input != [] && input[0].err.None? && TurnTaken(input[0], writes)
    ensures FirstRefused(input[1..], WritesAfter(input[0], writes), k) <==> FirstRefused(input, writes, k + 1)
  {
    var rest, after := input[1..], WritesAfter(input[0], writes);
    if FirstRefused(rest, after, k) {
      forall j | 0 <= j < k + 1 ensures input[j].err.None? && TurnTaken(input[j], WritesAt(input, writes, j)) {
        if j > 0 { assert rest[j - 1] == input[j]; }
      }
    }
    if FirstRefused(input, writes, k + 1) {
      forall j | 0 <= j < k ensures rest[j].err.None? && TurnTaken(rest[j], WritesAt(rest, after, j)) {
        assert rest[j] == input[j + 1] && TurnTaken(input[j + 1], WritesAt(input, writes, j + 1));
      }
    }
  }

  /** A copy that is refused somewhere delivers everything before, and of that chunk what the write took; it ends
      with the write's error, or as a short write. */
  lemma {:induction false} CopyRefused(input: seq<ReadStep>, writes: seq<WriteStep>, k: nat)
    requires FirstRefused(input, writes, k)
    ensures var c, data := Copy(input, writes), input[k].data;
            var w := NextWrite(WritesAt(input, writes, k), |data|);
            && c.sent == BytesOf(input, k) + data[..if w.limit < |data| then w.limit else |data|]
            && c.err == if w.err.Some? then w.err.value else ShortWrite
  {
    if k > 0 {
      assert TurnTaken(input[0], WritesAt(input, writes, 0));
      RefusedLater(input, writes, k - 1);
      CopyRefused(input[1..], WritesAfter(input[0], writes), k - 1);
      TurnFacts(input[0], writes);
      var data, n := input[k].data, Taken(NextWrite(WritesAt(input, writes, k), |input[k].data|), |input[k].data|);
      assert input[0].data + (BytesOf(input[1..], k - 1) + data[..n]) == BytesOf(input, k) + data[..n];
    }
  }

  /** Either every write was taken, or one turn is the first refused. */
  lemma {:induction false} TakenOrRefused(input: seq<ReadStep>, writes: seq<WriteStep>)
    ensures AllTaken(input, writes) <==> forall k: nat :: !FirstRefused(input, writes, k)
  {
    if input != [] {
      if !TurnTaken(input[0], writes) {
        assert FirstRefused(input, writes, 0);
      } else if input[0].err.Some? {
        forall k: nat ensures !FirstRefused(input, writes, k) {
          assert k > 0 ==> !input[0].err.None?;
        }
      } else {
        TakenOrRefused(input[1..], WritesAfter(input[0], writes));
        forall k: nat { RefusedLater(input, writes, k); }
        assert !FirstRefused(input, writes, 0);
        if k: nat :| FirstRefused(input, writes, k) {
          RefusedLater(input, writes, k - 1);
        }
      }
    }
  }

  // ---- Counters ----

  class Collector {
    var relayBytesIn: nat
    var relayBytesOut: nat
    var relaySuccess: nat
    var relayFailures: nat

    constructor ()
      ensures relayBytesIn == relayBytesOut == relaySuccess == relayFailures == 0
    {
      relayBytesIn, relayBytesOut, relaySuccess, relayFailures := 0, 0, 0, 0;
    }
  }

  /** Atomic addition on an unsigned 64-bit counter. */
  function Add64(counter: nat, n: nat): nat {
    (counter + n) % TWO_64
  }

  lemma AddTwice(counter: nat, a: nat, b: nat)
    ensures Add64(Add64(counter, a), b) == Add64(counter, a + b)
  {
  }

  lemma AddNothing(counter: nat)
    requires counter < TWO_64
    ensures Add64(counter, 0) == counter
  {
  }

  /** The body of the copy loop: one read and at most one write. */
  method CopyOnce(dst: Sink, src: Source, buf: array<byte>) returns (nw: nat, add: seq<nat>, stop: Option<Error>)
    requires FitsBuffer(src.input) && buf.Length == BUFFER
    modifies dst, src, buf
    ensures var t := TurnOf(old(src.input), old(dst.writes));
            && nw == |t.sent| && add == t.adds && stop == t.stop
            && dst.received == old(dst.received) + t.sent && |src.input| <= |old(src.input)|
            && (stop.None? ==> src.input == old(src.input)[1..] && FitsBuffer(src.input)
                               && dst.writes == WritesAfter(old(src.input)[0], old(dst.writes)))
  {
    nw, add := 0, [];
    var nr, er := src.Read(buf);
    if nr > 0 {
      var ew;
      nw, ew := dst.Write(buf[..nr]);
      if nw > 0 {
        add := [nw];
      }
      if ew.Some? {
        return nw, add, ew;
      }
      if nr != nw {
        return nw, add, Some(ShortWrite);
      }
    }
    return nw, add, er;
  }

  /** A direction under way, or ended with an error. */
  ghost predicate Halfway(whole: Copied, sent: seq<byte>, adds: seq<nat>, stop: Option<Error>, input: seq<ReadStep>,
                          writes: seq<WriteStep>) {
    match stop
    case None => FitsBuffer(input) && SoFar(whole, sent, adds, input, writes)
    case Some(e) => whole == Copied(sent, adds, e)
  }

  lemma TurnCounts(input: seq<ReadStep>, writes: seq<WriteStep>)
    ensures var t := TurnOf(input, writes); Sum(t.adds) == |t.sent|
  {
    if input != [] {
      TurnFacts(input[0], writes);
    }
  }

  /** A direction and its two ends; the far end held `base` before. */
  ghost predicate Moving(whole: Copied, base: seq<byte>, sent: seq<byte>, adds: seq<nat>, stop: Option<Error>,
                         src: Source, dst: Sink)
    reads src, dst
  {
    Halfway(whole, sent, adds, stop, src.input, dst.writes) && dst.received == base + sent
  }

  /** One turn of a direction. */
  method CopyTurn(dst: Sink, src: Source, buf: array<byte>, ghost whole: Copied, ghost base: seq<byte>,
                  ghost sent: seq<byte>, ghost adds: seq<nat>)
    returns (nw: nat, add: seq<nat>, stop: Option<Error>, ghost sent': seq<byte>)
    requires Moving(whole, base, sent, adds, None, src, dst) && buf.Length == BUFFER
    modifies dst, src, buf
    ensures Moving(whole, base, sent', adds + add, stop, src, dst)
    ensures |sent'| == |sent| + nw && nw == Sum(add)
    ensures |src.input| <= |old(src.input)| && (stop.None? ==> |src.input| < |old(src.input)|)
  {
    TakeTurn(whole, sent, adds, src.input, dst.writes);
    TurnCounts(src.input, dst.writes);
    sent' := sent + TurnOf(src.input, dst.writes).sent;
    nw, add, stop := CopyOnce(dst, src, buf);
  }

  /** One direction of a relay. `adds` are the amounts passed to the byte counter, in order. */
  method CopyCount(dst: Sink, src: Source) returns (written: nat, adds: seq<nat>, err: Error)
    requires FitsBuffer(src.input)
    modifies dst, src
    ensures old(dst.received) <= dst.received && written == |dst.received| - |old(dst.received)|
    ensures Copy(old(src.input), old(dst.writes)) == Copied(dst.received[|old(dst.received)|..], adds, err)
  {
    var buf := new byte[BUFFER];
    written, adds := 0, [];
    ghost var sent: seq<byte>, base, whole := [], dst.received, Copy(src.input, dst.writes);
    Begin(src.input, dst.writes);
    var stop: Option<Error> := None;
    while stop.None?
      invariant Moving(whole, base, sent, adds, stop, src, dst)
      invariant written == |sent|
      decreases |src.input|, if stop.None? then 1 else 0
    {
      var nw, add;
      nw, add, stop, sent := CopyTurn(dst, src, buf, whole, base, sent, adds);
      written, adds := written + nw, adds + add;
    }
    err := stop.value;
    WholeReceived(whole, base, sent, adds, err);
  }

  lemma WholeReceived(whole: Copied, base: seq<byte>, sent: seq<byte>, adds: seq<nat>, err: Error)
    requires whole == Copied(sent, adds, err)
    ensures base <= base + sent && Copied((base + sent)[|base|..], adds, err) == whole
  {
    assert (base + sent)[|base|..] == sent;
  }

  /** The first result, in order of arrival, that is not a plain end of stream. */
  method FirstError(arrived: seq<Error>) returns (err: Option<Error>)
    ensures err.None? <==> forall j | 0 <= j < |arrived| :: arrived[j] == Eof
    ensures err.Some? ==> err.value != Eof && exists j | 0 <= j < |arrived| ::
                                                arrived[j] == err.value && forall k | 0 <= k < j :: arrived[k] == Eof
  {
    err := None;
    for i := 0 to |arrived|
      invariant err.None? <==> forall j | 0 <= j < i :: arrived[j] == Eof
      invariant err.Some? ==> err.value != Eof && exists j | 0 <= j < i ::
                                                    arrived[j] == err.value
                                                    && forall k | 0 <= k < j :: arrived[k] == Eof
    {
      if arrived[i] != Eof && err.None? {
        err := Some(arrived[i]);
      }
    }
  }

  /** The results that have arrived are those of the directions that ended. */
  ghost predicate Arrivals(arrived: seq<Error>, up: Option<Error>, down: Option<Error>) {
    && (forall e | e in arrived :: up == Some(e) || down == Some(e))
    && (up.Some? ==> up.value in arrived) && (down.Some? ==> down.value in arrived)
  }

  function Arrive(arrived: seq<Error>, stop: Option<Error>): seq<Error> {
    if stop.Some? then arrived + [stop.value] else arrived
  }

  lemma ArriveOne(arrived: seq<Error>, stop: Option<Error>, other: Option<Error>)
    ensures Arrivals(arrived, None, other) ==> Arrivals(Arrive(arrived, stop), stop, other)
    ensures Arrivals(arrived, other, None) ==> Arrivals(Arrive(arrived, stop), other, stop)
  {
  }

  /** What the first error says about the two directions. */
  lemma FirstOfBoth(arrived: seq<Error>, up: Error, down: Error, err: Option<Error>)
    requires Arrivals(arrived, Some(up), Some(down))
    requires err.None? <==> forall j | 0 <= j < |arrived| :: arrived[j] == Eof
    requires err.Some? ==> err.value != Eof && err.value in arrived
    ensures err.None? <==> up == Eof && down == Eof
    ensures err.Some? ==> err.value == up || err.value == down
  {
    if err.Some? {
      var j :| 0 <= j < |arrived| && arrived[j] != Eof;
      assert arrived[j] in arrived;
    }
  }

  /** One direction of a relay: its copy so far, what the far end received since `base`, and its byte counter. */
  ghost predicate Flow(whole: Copied, base: seq<byte>, start: nat, sent: seq<byte>, adds: seq<nat>, stop: Option<Error>,
                       src: Source, dst: Sink, count: nat)
    reads src, dst
  {
    Moving(whole, base, sent, adds, stop, src, dst) && count == Add64(start, |sent|)
  }

  lemma FlowEnds(whole: Copied, base: seq<byte>, start: nat, sent: seq<byte>, adds: seq<nat>, stop: Option<Error>,
                 src: Source, dst: Sink, count: nat)
    requires Flow(whole, base, start, sent, adds, stop, src, dst, count) && stop.Some?
    ensures dst.received == base + whole.sent && count == Add64(start, |whole.sent|) && stop.value == whole.err
  {
  }

  /** One turn of a direction with its count. */
  method FlowTurn(dst: Sink, src: Source, buf: array<byte>, count: nat,
                  ghost whole: Copied, ghost base: seq<byte>, ghost start: nat, ghost sent: seq<byte>,
                      ghost adds: seq<nat>)
    returns (count': nat, stop: Option<Error>, ghost sent': seq<byte>, ghost adds': seq<nat>)
    requires Flow(whole, base, start, sent, adds, None, src, dst, count) && buf.Length == BUFFER
    modifies dst, src, buf
    ensures Flow(whole, base, start, sent', adds', stop, src, dst, count')
    ensures |src.input| <= |old(src.input)| && (stop.None? ==> |src.input| < |old(src.input)|)
  {
    var nw, add;
    nw, add, stop, sent' := CopyTurn(dst, src, buf, whole, base, sent, adds);
    AddTwice(start, |sent|, nw);
    count', adds' := Add64(count, nw), adds + add;
  }

  /** A relay: the turns of both directions interleave as `pick` says, and their results arrive in the order they end.
      With a collector every turn counts its bytes and the relay counts one outcome. */
  method Relay(toBackend: Sink, fromClient: Source, toClient: Sink, fromBackend: Source, c: Collector?,
               pick: nat -> bool)
    returns (err: Option<Error>)
    requires FitsBuffer(fromClient.input) && FitsBuffer(fromBackend.input)
    requires c != null ==> c.relayBytesIn < TWO_64 && c.relayBytesOut < TWO_64
    requires toBackend != toClient && fromClient != fromBackend
    modifies toBackend, fromClient, toClient, fromBackend, c
    ensures var up, down := Copy(old(fromClient.input), old(toBackend.writes)),
            Copy(old(fromBackend.input), old(toClient.writes));
            && toBackend.received == old(toBackend.received) + up.sent
            && toClient.received == old(toClient.received) + down.sent
            && (c != null ==>
                c.relayBytesOut == Add64(old(c.relayBytesOut), |up.sent|)
                && c.relayBytesIn == Add64(old(c.relayBytesIn), |down.sent|))
            && (err.None? <==> up.err == Eof && down.err == Eof)
            && (err.Some? ==> err.value != Eof && (err.value == up.err || err.value == down.err))
    ensures c != null && err.None? ==>
            c.relaySuccess == Add64(old(c.relaySuccess), 1) && c.relayFailures == old(c.relayFailures)
    ensures c != null && err.Some? ==>
            c.relayFailures == Add64(old(c.relayFailures), 1) && c.relaySuccess == old(c.relaySuccess)
  {
    ghost var up, down := Copy(fromClient.input, toBackend.writes), Copy(fromBackend.input, toClient.writes);
    Begin(fromClient.input, toBackend.writes);
    Begin(fromBackend.input, toClient.writes);
    var out0, in0 := if c == null then 0 else c.relayBytesOut, if c == null then 0 else c.relayBytesIn;
    AddNothing(out0);
    AddNothing(in0);
    var bytesOut, bytesIn, arrived :=
        RunBoth(toBackend, fromClient, toClient, fromBackend, c, pick, up, down, out0, in0);
    err := FirstError(arrived);
    FirstOfBoth(arrived, up.err, down.err, err);
    if c != null {
      if err.None? {
        c.relaySuccess := Add64(c.relaySuccess, 1);
      } else {
        c.relayFailures := Add64(c.relayFailures, 1);
      }
    }
  }

  /** Both directions to their ends, a turn at a time; the collector's byte counters follow every turn. */
  method RunBoth(toBackend: Sink, fromClient: Source, toClient: Sink, fromBackend: Source, c: Collector?,
                 pick: nat -> bool,
                 ghost up: Copied, ghost down: Copied, out0: nat, in0: nat)
    returns (bytesOut: nat, bytesIn: nat, arrived: seq<Error>)
    requires toBackend != toClient && fromClient != fromBackend
    requires c != null ==> c.relayBytesOut == out0 && c.relayBytesIn == in0
    requires Flow(up, toBackend.received, out0, [], [], None, fromClient, toBackend, out0)
    requires Flow(down, toClient.received, in0, [], [], None, fromBackend, toClient, in0)
    modifies toBackend, fromClient, toClient, fromBackend, c
    ensures toBackend.received == old(toBackend.received) + up.sent
            && toClient.received == old(toClient.received) + down.sent
    ensures c != null ==> c.relayBytesOut == Add64(out0, |up.sent|) && c.relayBytesIn == Add64(in0, |down.sent|)
    ensures c != null ==> c.relaySuccess == old(c.relaySuccess) && c.relayFailures == old(c.relayFailures)
    ensures Arrivals(arrived, Some(up.err), Some(down.err))
  {
    var upBuf, downBuf := new byte[BUFFER], new byte[BUFFER];
    var upStop: Option<Error>, downStop: Option<Error>, k := None, None, 0;
    bytesOut, bytesIn, arrived := out0, in0, [];
    ghost var upBase, downBase := toBackend.received, toClient.received;
    ghost var upSent: seq<byte>, upAdds: seq<nat>, downSent: seq<byte>, downAdds: seq<nat> := [], [], [], [];
    while upStop.None? || downStop.None?
      invariant Flow(up, upBase, out0, upSent, upAdds, upStop, fromClient, toBackend, bytesOut)
      invariant Flow(down, downBase, in0, downSent, downAdds, downStop, fromBackend, toClient, bytesIn)
      invariant c != null ==> c.relayBytesOut == bytesOut && c.relayBytesIn == bytesIn
      invariant c != null ==> c.relaySuccess == old(c.relaySuccess) && c.relayFailures == old(c.relayFailures)
      invariant Arrivals(arrived, upStop, downStop)
      decreases |fromClient.input| + |fromBackend.input| + (if upStop.None? then 1 else 0)
          + (if downStop.None? then 1 else 0)
    {
      if upStop.None? && (downStop.Some? || pick(k)) {
        bytesOut, upStop, upSent, upAdds :=
            FlowTurn(toBackend, fromClient, upBuf, bytesOut, up, upBase, out0, upSent, upAdds);
        if c != null {
          c.relayBytesOut := bytesOut;
        }
        ArriveOne(arrived, upStop, downStop);
        arrived := Arrive(arrived, upStop);
      } else {
        bytesIn, downStop, downSent, downAdds :=
            FlowTurn(toClient, fromBackend, downBuf, bytesIn, down, downBase, in0, downSent, downAdds);
        if c != null {
          c.relayBytesIn := bytesIn;
        }
        ArriveOne(arrived, downStop, upStop);
        arrived := Arrive(arrived, downStop);
      }
      k := k + 1;
    }
    FlowEnds(up, upBase, out0, upSent, upAdds, upStop, fromClient, toBackend, bytesOut);
    FlowEnds(down, downBase, in0, downSent, downAdds, downStop, fromBackend, toClient, bytesIn);
  }
}
