/**
 The bounded collection of a probe's output: two reader threads share a byte budget through a weak
 compare-and-exchange loop and feed one bounded first-in-first-out channel; the collector drains it.
 Every interleaving of their atomic steps is a run.
 */
module SelfTest {
  import opened Results
  import opened Bytes

  const LIMIT: nat := 1024 * 1024
  const CHUNK: nat := 8 * 1024
  const CHANNEL: nat := 16

  /** `from` tells the senders apart in proofs; the collector uses it for data only. */
  datatype Message = Data(from: nat, bytes: seq<Byte>) | LimitExceeded(from: nat) | Done(from: nat, ok: bool)

  /** Where a reader thread is. */
  datatype Pc =
    | Reading
    | Loading(chunk: seq<Byte>)
    | Trying(chunk: seq<Byte>, current: nat)
    | Sending(chunk: seq<Byte>)
    | Refused
    | Finishing(ok: bool)
    | Stopped

  /** `taken` bytes of `stream` have been read, `granted` of them reserved; `sent` is what went out. */
  datatype Reader = Reader(stream: seq<Byte>, taken: nat, granted: nat, pc: Pc, sent: seq<Message>)

  datatype Outcome = Running | Failed | Finished(success: bool)

  datatype Collector = Collector(
    status: Option<bool>,
    readersDone: nat,
    output: (seq<Byte>, seq<Byte>),
    received: (seq<Message>, seq<Message>),
    outcome: Outcome)

  datatype Probe = Probe(counter: nat, readers: (Reader, Reader), queue: seq<Message>, collector: Collector)

  function Start(stdout: seq<Byte>, stderr: seq<Byte>): Probe {
    Probe(0, (Reader(stdout, 0, 0, Reading, []), Reader(stderr, 0, 0, Reading, [])), [],
          Collector(None, 0, ([], []), ([], []), Running))
  }

  /** Which = 0 is standard output, which = 1 standard error. */
  datatype Event =
    | Read(which: nat, count: nat)
    | ReadFails(which: nat)
    | Load(which: nat, seen: nat)
    | Check(which: nat)
    | CasFails(which: nat, seen: nat)
    | Send(which: nat)
    | Poll(success: bool)
    | TimeOut
    | Receive
    | Disconnected
    | Finish

  function Of<T>(pair: (T, T), which: nat): T {
    if which == 0 then pair.0 else pair.1
  }

  function With<T>(pair: (T, T), which: nat, x: T): (T, T) {
    if which == 0 then (x, pair.1) else (pair.0, x)
  }

  // ---- Steps ----

  function Min(a: nat, b: nat): nat {
    if a <= b then a else b
  }

  /** A step of a reader that touches neither counter nor channel, or only reads the counter.  A relaxed
      load and a failed exchange may report any value the counter has had. */
  function LocalStep(r: Reader, counter: nat, e: Event): Option<Reader> {
    match e
    case Read(_, n) =>
      if r.pc != Reading then None
      else if r.taken >= |r.stream| then Some(r.(pc := Finishing(true)))
      else if n < 1 || n > Min(CHUNK, |r.stream| - r.taken) then None
      else Some(r.(taken := r.taken + n, pc := Loading(r.stream[r.taken..r.taken + n])))
    case ReadFails(_) =>
      if r.pc != Reading then None else Some(r.(pc := Finishing(false)))
    case Load(_, seen) =>
      if !r.pc.Loading? || seen > counter then None else Some(r.(pc := Trying(r.pc.chunk, seen)))
    case CasFails(_, seen) =>
      if !r.pc.Trying? || seen > counter || r.pc.current + |r.pc.chunk| > LIMIT then None
      else Some(r.(pc := Trying(r.pc.chunk, seen)))
    case _ => None
  }

  /** The budget check; if it passes, the exchange that succeeds. */
  function CheckStep(r: Reader, counter: nat): Option<(Reader, nat)> {
    if !r.pc.Trying? then None
    else
      var total := r.pc.current + |r.pc.chunk|;
      if total > LIMIT then Some((r.(pc := Refused), counter))
      else if r.pc.current != counter then None
      else Some((r.(pc := Sending(r.pc.chunk), granted := r.granted + |r.pc.chunk|), total))
  }

  function Outgoing(which: nat, pc: Pc): Option<Message> {
    match pc
    case Sending(chunk) => Some(Data(which, chunk))
    case Refused => Some(LimitExceeded(which))
    case Finishing(ok) => Some(Done(which, ok))
    case _ => None
  }

  /** After a send that went through. */
  function Sent(r: Reader, m: Message): Reader {
    var next := match m case Data(_, _) => Reading case LimitExceeded(_) => Finishing(true) case Done(_, _) => Stopped;
    r.(pc := next, sent := r.sent + [m])
  }

  /** After a send to a collector that has gone. */
  function Dropped(r: Reader, m: Message): Reader {
    r.(pc := if m.Done? then Stopped else Finishing(true))
  }

  function Accept(c: Collector, m: Message): Collector {
    var c := c.(received := With(c.received, m.from, Of(c.received, m.from) + [m]));
    match m
    case Data(stream, bytes) => c.(output := With(c.output, stream, Of(c.output, stream) + bytes))
    case Done(_, ok) => if ok then c.(readersDone := c.readersDone + 1) else c.(outcome := Failed)
    case LimitExceeded(_) => c.(outcome := Failed)
  }

  /** One atomic step; `None` if it is not possible now.  Sending waits while the channel is full.  The
      collector may poll, time out or receive in any order, which covers the order of its loop body. */
  function Next(p: Probe, e: Event): Option<Probe> {
    var c := p.collector;
    match e
    case Check(i) =>
      if i >= 2 then None
      else
        var step := CheckStep(Of(p.readers, i), p.counter);
        if step.None? then None
        else Some(p.(readers := With(p.readers, i, step.value.0), counter := step.value.1))
    case Send(i) =>
      if i >= 2 then None
      else
        var r := Of(p.readers, i);
        var m := Outgoing(i, r.pc);
        if m.None? then None
        else if c.outcome != Running then Some(p.(readers := With(p.readers, i, Dropped(r, m.value))))
        else if |p.queue| >= CHANNEL then None
        else Some(p.(readers := With(p.readers, i, Sent(r, m.value)), queue := p.queue + [m.value]))
    case Poll(success) =>
      if c.outcome == Running && c.status.None? then Some(p.(collector := c.(status := Some(success)))) else None
    case TimeOut =>
      if c.outcome == Running then Some(p.(collector := c.(outcome := Failed))) else None
    case Receive =>
      if c.outcome != Running || p.queue == [] then None
      else Some(p.(collector := Accept(c, p.queue[0]), queue := p.queue[1..]))
    case Disconnected =>
      if c.outcome != Running || p.queue != [] || p.readers.0.pc != Stopped || p.readers.1.pc != Stopped then None
      else if c.readersDone == 2 then Some(p)
      else Some(p.(collector := c.(outcome := Failed)))
    case Finish =>
      if c.outcome == Running && c.status.Some? && c.readersDone == 2
      then Some(p.(collector := c.(outcome := Finished(c.status.value)))) else None
    case Read(i, _) => Local(p, i, e)
    case ReadFails(i) => Local(p, i, e)
    case Load(i, _) => Local(p, i, e)
    case CasFails(i, _) => Local(p, i, e)
  }

  function Local(p: Probe, i: nat, e: Event): Option<Probe> {
    if i >= 2 then None
    else
      var step := LocalStep(Of(p.readers, i), p.counter, e);
      if step.None? then None else Some(p.(readers := With(p.readers, i, step.value)))
  }

  function Run(p: Probe, events: seq<Event>): Option<Probe>
    decreases |events|
  {
    if events == [] then Some(p)
    else
      var next := Next(p, events[0]);
      if next.None? then None else Run(next.value, events[1..])
  }

  // ---- Messages of one sender ----

  function From(queue: seq<Message>, which: nat): seq<Message> {
    if queue == [] then []
    else (if queue[0].from == which then [queue[0]] else []) + From(queue[1..], which)
  }

  lemma {:induction false} FromSnoc(queue: seq<Message>, m: Message, which: nat)
    ensures From(queue + [m], which) == From(queue, which) + if m.from == which then [m] else []
  {
    if queue == [] {
      assert queue + [m] == [m] && [m][1..] == [];
    } else {
      assert (queue + [m])[1..] == queue[1..] + [m];
      FromSnoc(queue[1..], m, which);
    }
  }

  function BytesOf(ms: seq<Message>): seq<Byte> {
    if ms == [] then []
    else BytesOf(ms[..|ms| - 1]) + (var m := ms[|ms| - 1]; if m.Data? then m.bytes else [])
  }

  function Dones(ms: seq<Message>): nat {
    if ms == [] then 0 else Dones(ms[..|ms| - 1]) + if ms[|ms| - 1].Done? then 1 else 0
  }

  /** Nothing that makes the collector fail. */
  predicate Clean(ms: seq<Message>) {
    forall m <- ms :: !m.LimitExceeded? && !(m.Done? && !m.ok)
  }

  lemma Snoc(ms: seq<Message>, m: Message)
    ensures BytesOf(ms + [m]) == BytesOf(ms) + if m.Data? then m.bytes else []
    ensures Dones(ms + [m]) == Dones(ms) + if m.Done? then 1 else 0
    ensures Clean(ms + [m]) <==> Clean(ms) && Clean([m])
  {
    var s := ms + [m];
    assert s[..|s| - 1] == ms && s[|s| - 1] == m;
    assert m in [m] && m in s;
    assert forall x :: x in s <==> x in ms || x == m;
  }

  lemma {:induction false} DonesConcat(a: seq<Message>, b: seq<Message>)
    ensures Dones(a + b) == Dones(a) + Dones(b)
    decreases |b|
  {
    if b == [] {
      assert a + b == a;
    } else {
      assert (a + b)[..|a + b| - 1] == a + b[..|b| - 1];
      DonesConcat(a, b[..|b| - 1]);
    }
  }

  // ---- Invariants ----

  function Held(pc: Pc): seq<Byte> {
    if pc.Sending? then pc.chunk else []
  }

  /** A reader's position in its stream: what it holds is the next bytes, reserved or not. */
  ghost predicate InPlace(r: Reader, counter: nat) {
    && r.granted <= r.taken <= |r.stream|
    && (r.pc.Reading? || r.pc.Sending? ==> r.granted == r.taken)
    && (r.pc.Loading? || r.pc.Trying? ==> r.pc.chunk == r.stream[r.granted..r.taken])
    && (r.pc.Trying? ==> r.pc.current <= counter)
    && |Held(r.pc)| <= r.granted && Held(r.pc) == r.stream[r.granted - |Held(r.pc)|..r.granted]
  }

  /** The counter is the sum of the reservations and within the budget; refusal means too much output. */
  ghost predicate Budgeted(p: Probe) {
    && p.counter == p.readers.0.granted + p.readers.1.granted <= LIMIT
    && InPlace(p.readers.0, p.counter) && InPlace(p.readers.1, p.counter)
    && (p.readers.0.pc.Refused? || p.readers.1.pc.Refused? ==> |p.readers.0.stream| + |p.readers.1.stream| > LIMIT)
  }

  /** What a reader has sent: its granted bytes in order, an end only when it stopped, a good end only
      after the whole stream. */
  ghost predicate SentRight(r: Reader) {
    && r.granted <= |r.stream| && BytesOf(r.sent) + Held(r.pc) == r.stream[..r.granted]
    && (!r.pc.Finishing? && !r.pc.Stopped? ==> forall m <- r.sent :: m.Data?)
    && (!r.pc.Stopped? ==> Dones(r.sent) == 0)
    && (r.pc.Finishing? && r.pc.ok && Clean(r.sent) ==> r.granted == |r.stream|)
    && (r.pc.Stopped? ==>
          && r.sent != [] && r.sent[|r.sent| - 1].Done? && Dones(r.sent[..|r.sent| - 1]) == 0
          && (Clean(r.sent) ==> r.granted == |r.stream|))
  }

  /** Nothing is lost or reordered between one reader and the collector. */
  ghost predicate Connected(r: Reader, which: nat, received: seq<Message>, queue: seq<Message>, output: seq<Byte>) {
    && SentRight(r)
    && received + From(queue, which) == r.sent
    && output == BytesOf(received) && Clean(received)
  }

  ghost predicate Streaming(p: Probe) {
    var c := p.collector;
    && Connected(p.readers.0, 0, c.received.0, p.queue, c.output.0)
    && Connected(p.readers.1, 1, c.received.1, p.queue, c.output.1)
    && c.readersDone == Dones(c.received.0) + Dones(c.received.1)
    && (c.outcome.Finished? ==> c.readersDone == 2)
  }

  ghost predicate Inv(p: Probe) {
    Budgeted(p) && (!p.collector.outcome.Failed? ==> Streaming(p))
  }

  // ---- Every step keeps them ----

  /** A reader after a step that sends nothing. */
  ghost predicate Moved(r: Reader, next: Reader) {
    && next.stream == r.stream && next.sent == r.sent
    && (SentRight(r) ==> SentRight(next))
  }

  lemma ReaderMoves(r: Reader, counter: nat, e: Event)
    requires InPlace(r, counter) && LocalStep(r, counter, e).Some?
    ensures var next := LocalStep(r, counter, e).value;
            InPlace(next, counter) && Moved(r, next) && next.granted == r.granted && !next.pc.Refused?
  {
  }

  lemma ReaderChecks(r: Reader, counter: nat)
    requires InPlace(r, counter) && CheckStep(r, counter).Some?
    ensures var (next, after) := CheckStep(r, counter).value;
            && InPlace(next, after) && Moved(r, next)
            && after - counter == next.granted - r.granted >= 0 && (after == counter || after <= LIMIT)
            && (next.pc.Refused? ==> counter + |r.stream| - r.granted > LIMIT)
  {
    if r.pc.current + |r.pc.chunk| <= LIMIT {
      assert r.stream[..r.granted] + r.stream[r.granted..r.taken] == r.stream[..r.taken];
    }
  }

  lemma ReaderSends(r: Reader, counter: nat, which: nat, m: Message)
    requires InPlace(r, counter) && Outgoing(which, r.pc) == Some(m)
    ensures InPlace(Sent(r, m), counter) && InPlace(Dropped(r, m), counter)
    ensures SentRight(r) ==> SentRight(Sent(r, m))
  {
    Snoc(r.sent, m);
    assert Sent(r, m).sent[..|r.sent|] == r.sent;
    assert m in r.sent + [m];
  }

  ghost predicate Tagged(queue: seq<Message>) {
    forall m <- queue :: m.from < 2
  }

  ghost predicate SameStreams(p: Probe, q: Probe) {
    p.readers.0.stream == q.readers.0.stream && p.readers.1.stream == q.readers.1.stream
  }

  ghost predicate Keeps(p: Probe, q: Option<Probe>) {
    q.Some? ==> Inv(q.value) && Tagged(q.value.queue) && SameStreams(p, q.value)
  }

  lemma LocalKeeps(p: Probe, i: nat, e: Event)
    requires Inv(p) && Tagged(p.queue)
    ensures Keeps(p, Local(p, i, e))
  {
    if i < 2 && LocalStep(Of(p.readers, i), p.counter, e).Some? {
      ReaderMoves(Of(p.readers, i), p.counter, e);
    }
  }

  lemma CheckKeeps(p: Probe, i: nat)
    requires Inv(p) && Tagged(p.queue)
    ensures Keeps(p, Next(p, Check(i)))
  {
    if i < 2 && CheckStep(Of(p.readers, i), p.counter).Some? {
      ReaderChecks(Of(p.readers, i), p.counter);
    }
  }

  /** What a send does to the two connections. */
  lemma ConnectionSends(r: Reader, which: nat, other: nat, received: seq<Message>, queue: seq<Message>,
      output: seq<Byte>, m: Message)
    requires Connected(r, which, received, queue, output)
    requires m.from == other
    ensures other != which ==> Connected(r, which, received, queue + [m], output)
    ensures other == which && SentRight(Sent(r, m)) ==> Connected(Sent(r, m), which, received, queue + [m], output)
  {
    FromSnoc(queue, m, which);
    assert other == which ==> received + From(queue + [m], which) == r.sent + [m];
  }

  lemma SendBudgeted(p: Probe, i: nat)
    requires Budgeted(p) && Tagged(p.queue) && Next(p, Send(i)).Some?
    ensures var q := Next(p, Send(i)).value;
            Budgeted(q) && Tagged(q.queue) && SameStreams(p, q)
  {
    var r := Of(p.readers, i);
    SendInPlace(r, p.counter, i, Outgoing(i, r.pc).value);
  }

  /** Sending or dropping a message reserves nothing. */
  lemma SendInPlace(r: Reader, counter: nat, which: nat, m: Message)
    requires InPlace(r, counter) && Outgoing(which, r.pc) == Some(m)
    ensures InPlace(Sent(r, m), counter) && InPlace(Dropped(r, m), counter)
    ensures m.from == which && Sent(r, m).granted == r.granted && Dropped(r, m).granted == r.granted
    ensures Sent(r, m).stream == r.stream && Dropped(r, m).stream == r.stream
    ensures !Sent(r, m).pc.Refused? && !Dropped(r, m).pc.Refused?
  {
  }

  lemma SendStreams(p: Probe, i: nat)
    requires Streaming(p) && p.collector.outcome.Running? && Next(p, Send(i)).Some?
    requires InPlace(Of(p.readers, i), p.counter)
    ensures Streaming(Next(p, Send(i)).value)
  {
    var r, c, q := Of(p.readers, i), p.collector, Next(p, Send(i)).value;
    var m := Outgoing(i, r.pc).value;
    ReaderSends(r, p.counter, i, m);
    assert Connected(q.readers.0, 0, c.received.0, q.queue, c.output.0) by {
      ConnectionSends(p.readers.0, 0, i, c.received.0, p.queue, c.output.0, m);
    }
    assert Connected(q.readers.1, 1, c.received.1, q.queue, c.output.1) by {
      ConnectionSends(p.readers.1, 1, i, c.received.1, p.queue, c.output.1, m);
    }
  }

  lemma SendKeeps(p: Probe, i: nat)
    requires Inv(p) && Tagged(p.queue)
    ensures Keeps(p, Next(p, Send(i)))
  {
    if Next(p, Send(i)).None? {
      return;
    }
    SendBudgeted(p, i);
    if p.collector.outcome.Finished? {
      FinishedStopped(p);
    } else if p.collector.outcome.Running? {
      SendStreams(p, i);
    }
  }

  lemma OneDone(front: seq<Message>, last: Message, received: seq<Message>, rest: seq<Message>)
    requires received + rest == front + [last] && last.Done? && Dones(front) == 0
    ensures Dones(received) == if rest == [] then 1 else 0
  {
    Snoc(front, last);
    if rest == [] {
      assert received == front + [last];
    } else {
      assert front == received + rest[..|rest| - 1];
      DonesConcat(received, rest[..|rest| - 1]);
    }
  }

  /** A sender whose end has been received is complete: nothing of it is left in the channel. */
  lemma DoneIsLast(r: Reader, which: nat, received: seq<Message>, queue: seq<Message>, output: seq<Byte>)
    requires Connected(r, which, received, queue, output)
    ensures Dones(received) <= 1
    ensures Dones(received) == 1 ==> r.pc.Stopped? && output == r.stream && r.granted == |r.stream|
  {
    var rest := From(queue, which);
    if !r.pc.Stopped? {
      DonesConcat(received, rest);
      return;
    }
    var front, last := r.sent[..|r.sent| - 1], r.sent[|r.sent| - 1];
    assert r.sent == front + [last];
    OneDone(front, last, received, rest);
    if rest == [] {
      assert received == r.sent;
      assert r.stream[..|r.stream|] == r.stream;
      assert BytesOf(r.sent) + [] == BytesOf(r.sent);
    }
  }

  lemma FinishedStopped(p: Probe)
    requires Inv(p) && !p.collector.outcome.Failed? && p.collector.readersDone == 2
    ensures p.readers.0.pc.Stopped? && p.readers.1.pc.Stopped?
    ensures p.collector.output == (p.readers.0.stream, p.readers.1.stream)
    ensures |p.collector.output.0| + |p.collector.output.1| == p.counter
  {
    var c := p.collector;
    DoneIsLast(p.readers.0, 0, c.received.0, p.queue, c.output.0);
    DoneIsLast(p.readers.1, 1, c.received.1, p.queue, c.output.1);
  }

  lemma ConnectionReceives(r: Reader, which: nat, received: seq<Message>, queue: seq<Message>, output: seq<Byte>)
    requires queue != [] && Connected(r, which, received, queue, output)
    ensures var m := queue[0];
            && (m.from != which ==> Connected(r, which, received, queue[1..], output))
            && (m.from == which && Clean([m]) ==>
                  Connected(r, which, received + [m], queue[1..], output + if m.Data? then m.bytes else []))
  {
    var m := queue[0];
    Snoc(received, m);
    if m.from == which {
      assert received + From(queue, which) == (received + [m]) + From(queue[1..], which);
    }
  }

  lemma ReceiveKeeps(p: Probe)
    requires Inv(p) && Tagged(p.queue)
    ensures Keeps(p, Next(p, Receive))
  {
    if p.queue == [] || p.collector.outcome != Running {
      return;
    }
    var c, m := p.collector, p.queue[0];
    ConnectionReceives(p.readers.0, 0, c.received.0, p.queue, c.output.0);
    ConnectionReceives(p.readers.1, 1, c.received.1, p.queue, c.output.1);
    Snoc(c.received.0, m);
    Snoc(c.received.1, m);
    assert m in [m] && m in p.queue;
  }

  /** A collector that only changes its status or gives up or finishes. */
  lemma CollectorKeeps(p: Probe, status: Option<bool>, outcome: Outcome)
    requires Inv(p) && Tagged(p.queue) && p.collector.outcome == Running
    requires outcome.Finished? ==> p.collector.readersDone == 2
    ensures Keeps(p, Some(p.(collector := p.collector.(status := status, outcome := outcome))))
  {
  }

  lemma CollectorSteps(p: Probe, e: Event)
    requires Inv(p) && Tagged(p.queue) && (e.Poll? || e.TimeOut? || e.Disconnected? || e.Finish?)
    ensures Keeps(p, Next(p, e))
  {
    var c := p.collector;
    if c.outcome == Running {
      CollectorKeeps(p, c.status, Failed);
      match e
      case Poll(success) => CollectorKeeps(p, Some(success), Running);
      case Finish =>
        if c.status.Some? && c.readersDone == 2 {
          CollectorKeeps(p, c.status, Finished(c.status.value));
        }
      case _ =>
    }
  }

  lemma StepKeeps(p: Probe, e: Event)
    requires Inv(p) && Tagged(p.queue)
    ensures Keeps(p, Next(p, e))
  {
    if e.Poll? || e.TimeOut? || e.Disconnected? || e.Finish? {
      CollectorSteps(p, e);
    } else if e.Check? {
      CheckKeeps(p, e.which);
    } else if e.Send? {
      SendKeeps(p, e.which);
    } else if e.Receive? {
      ReceiveKeeps(p);
    } else {
      LocalKeeps(p, e.which, e);
    }
  }

  lemma {:induction false} RunKeeps(p: Probe, events: seq<Event>)
    requires Inv(p) && Tagged(p.queue) && Run(p, events).Some?
    ensures Inv(Run(p, events).value) && SameStreams(p, Run(p, events).value)
    decreases |events|
  {
    if events != [] {
      StepKeeps(p, events[0]);
      RunKeeps(Next(p, events[0]).value, events[1..]);
    }
  }

  /**
   In every run, whatever the interleaving and however often the exchange fails: the counter is the sum
   of the granted reservations and within the budget; a reservation is refused only if the probe's
   output exceeds the budget; and if the collector finishes, its buffers are the complete streams.
   */
  lemma BoundedAndComplete(stdout: seq<Byte>, stderr: seq<Byte>, events: seq<Event>)
    requires Run(Start(stdout, stderr), events).Some?
    ensures var p := Run(Start(stdout, stderr), events).value;
            && p.counter == p.readers.0.granted + p.readers.1.granted <= LIMIT
            && (p.readers.0.pc.Refused? || p.readers.1.pc.Refused? ==> |stdout| + |stderr| > LIMIT)
            && (p.collector.outcome.Finished? ==>
                  p.collector.output == (stdout, stderr) && |stdout| + |stderr| == p.counter)
  {
    var start := Start(stdout, stderr);
    assert Inv(start);
    RunKeeps(start, events);
    var p := Run(start, events).value;
    if p.collector.outcome.Finished? {
      FinishedStopped(p);
    }
  }

  // ---- The collection loop ----

  lemma {:induction false} RunConcat(p: Probe, a: seq<Event>, b: seq<Event>)
    requires Run(p, a).Some?
    ensures Run(p, a + b) == Run(Run(p, a).value, b)
    decreases |a|
  {
    if a == [] {
      assert a + b == b;
    } else {
      assert (a + b)[0] == a[0] && (a + b)[1..] == a[1..] + b;
      RunConcat(Next(p, a[0]).value, a[1..], b);
    }
  }

  lemma RunSnoc(p: Probe, a: seq<Event>, e: Event)
    requires Run(p, a).Some? && Next(Run(p, a).value, e).Some?
    ensures Run(p, a + [e]) == Next(Run(p, a).value, e)
  {
    RunConcat(p, a, [e]);
    assert [e][1..] == [];
  }

  predicate ByReader(e: Event) {
    e.Read? || e.ReadFails? || e.Load? || e.Check? || e.CasFails? || e.Send?
  }

  /** The readers take whatever steps they can of these. */
  method Interleave(p: Probe, events: seq<Event>) returns (q: Probe, ghost taken: seq<Event>)
    ensures Run(p, taken) == Some(q) && q.collector == p.collector
  {
    q, taken := p, [];
    for i := 0 to |events|
      invariant Run(p, taken) == Some(q) && q.collector == p.collector
    {
      var next := Next(q, events[i]);
      if ByReader(events[i]) && next.Some? {
        RunSnoc(p, taken, events[i]);
        q, taken := next.value, taken + [events[i]];
      }
    }
  }

  /** One turn of the loop as the world presents it: what the readers do meanwhile, whether the child is
      found to have exited, and whether the time is up. */
  datatype Turn = Turn(readers: seq<Event>, exited: Option<bool>, late: bool)

  /**
   The loop over one probe.  It gives the combined output only if the child succeeded within the time
   and the budget, and then it is all of it.
   */
  method CollectOutput(stdout: seq<Byte>, stderr: seq<Byte>, schedule: seq<Turn>) returns (r: Option<seq<Byte>>)
    ensures r.Some? ==> r.value == stdout + stderr && |stdout| + |stderr| <= LIMIT
  {
    var probe := Start(stdout, stderr);
    ghost var start, events := probe, [];
    var status: Option<bool> := None;
    var readersDone: nat := 0;
    var output: (seq<Byte>, seq<Byte>) := ([], []);
    var turn := 0;
    while status.None? || readersDone < 2
      invariant turn <= |schedule| && Run(start, events) == Some(probe)
      invariant probe.collector.outcome == Running && probe.collector.status == status
      invariant probe.collector.readersDone == readersDone && probe.collector.output == output
      decreases |schedule| - turn
    {
      if turn == |schedule| {
        return None;
      }
      var now := schedule[turn];
      turn := turn + 1;
      ghost var taken;
      ghost var before := probe;
      probe, taken := Interleave(probe, now.readers);
      RunConcat(start, events, taken);
      events := events + taken;
      if status.None? && now.exited.Some? {
        RunSnoc(start, events, Poll(now.exited.value));
        probe, events := Next(probe, Poll(now.exited.value)).value, events + [Poll(now.exited.value)];
        status := now.exited;
      }
      if now.late {
        return None;
      }
      if probe.queue != [] {
        var m := probe.queue[0];
        RunSnoc(start, events, Receive);
        probe, events := Next(probe, Receive).value, events + [Receive];
        match m
        case Data(stream, bytes) => output := With(output, stream, Of(output, stream) + bytes);
        case Done(_, ok) =>
          if !ok {
            return None;
          }
          readersDone := readersDone + 1;
        case LimitExceeded(_) =>
          return None;
      } else if probe.readers.0.pc == Stopped && probe.readers.1.pc == Stopped && readersDone != 2 {
        return None;
      }
    }
    CollectedIsComplete(stdout, stderr, events);
    if !status.value {
      return None;
    }
    r := Some(output.0 + output.1);
  }

  lemma CollectedIsComplete(stdout: seq<Byte>, stderr: seq<Byte>, events: seq<Event>)
    requires Run(Start(stdout, stderr), events).Some?
    requires var c := Run(Start(stdout, stderr), events).value.collector; c.outcome == Running && c.readersDone >= 2
    ensures Run(Start(stdout, stderr), events).value.collector.output == (stdout, stderr)
    ensures |stdout| + |stderr| <= LIMIT
  {
    var start := Start(stdout, stderr);
    assert Inv(start);
    RunKeeps(start, events);
    var p := Run(start, events).value;
    DoneIsLast(p.readers.0, 0, p.collector.received.0, p.queue, p.collector.output.0);
    DoneIsLast(p.readers.1, 1, p.collector.received.1, p.queue, p.collector.output.1);
    FinishedStopped(p);
  }

  // ---- The reservation loop by itself ----

  /** What other threads do to the counter before an attempt, and whether the attempt fails spuriously. */
  datatype Attempt = Attempt(others: nat, spurious: bool)

  class OutputSize {
    var value: nat
    ghost var granted: nat

    ghost predicate Valid()
      reads this
    {
      value == granted <= LIMIT
    }

    constructor ()
      ensures Valid() && granted == 0
    {
      value, granted := 0, 0;
    }

    /** Other threads' reservations, as far as the budget allows them. */
    method Interfere(others: nat)
      requires Valid()
      modifies this
      ensures Valid() && granted == old(granted) + if old(granted) + others <= LIMIT then others else 0
    {
      if value + others <= LIMIT {
        value, granted := value + others, granted + others;
      }
    }

    method CompareExchangeWeak(current: nat, total: nat, spurious: bool) returns (won: bool, actual: nat)
      modifies this
      ensures won <==> !spurious && old(value) == current
      ensures actual == old(value)
      ensures value == if won then total else old(value)
      ensures granted == if won then old(granted) + (total - current) else old(granted)
      requires current <= total
    {
      actual := value;
      won := !spurious && value == current;
      if won {
        value, granted := total, granted + (total - current);
      }
    }

    /**
     The loop, under interference for as long as the schedule lasts.  Granted: the budget still holds
     and this reservation and only it was added to what others added.  Refused: it would not fit.
     */
    method ReserveOutput(read: nat, schedule: seq<Attempt>) returns (ok: bool, ghost others: nat)
      requires Valid()
      modifies this
      ensures Valid() && granted == old(granted) + others + if ok then read else 0
      ensures !ok ==> granted + read > LIMIT
    {
      var current: nat := value;
      var turn := 0;
      others := 0;
      while true
        invariant Valid() && turn <= |schedule| && current <= value
        invariant granted == old(granted) + others
        invariant turn == |schedule| ==> current == value
        decreases |schedule| - turn
      {
        var total := current + read;
        if total > LIMIT {
          return false, others;
        }
        var spurious := false;
        if turn < |schedule| {
          ghost var before := granted;
          Interfere(schedule[turn].others);
          others := others + (granted - before);
          spurious := schedule[turn].spurious;
          turn := turn + 1;
        }
        var won, actual := CompareExchangeWeak(current, total, spurious);
        if won {
          return true, others;
        }
        current := actual;
      }
    }
  }
}
