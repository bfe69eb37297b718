/** The steps of the request protocol: what producers, the worker's poller, its handlers and completions do to the
    worker's state, step by step and over a run. */
module WorkerSteps {
  datatype OpCode = GET | PUT | DELETE | FIRST | SEEK | NEXT | UNKNOWN(code: nat)

  datatype Request = Request(op: OpCode, shard: nat, item: nat, cb: nat, ctx: nat, scanCb: nat, scanBatch: nat)

  /** What a producer asks for when it calls. */
  datatype Order = Order(producer: nat, op: OpCode, shard: nat, item: nat, cb: nat, ctx: nat)

  /** A buffer in a producer's hands: for which order, and whether it has been filled in yet. */
  datatype Hold = Hold(order: Order, filled: bool)

  /** One hand-over of a request to its handler: the request's number, and the fields that the handler finds. */
  datatype Handed = Handed(ticket: nat, request: Request)

  datatype Internal = Internal(request: Request, noLookup: bool, hasEntry: bool)

  datatype Status = Success | NotExist | IoError | OpUnknown | HandlerStatus(code: int)

  datatype Callback = Callback(cb: nat, ctx: nat, status: Status)

  /** What a request in the hands of a handler is waiting for. */
  datatype Stage = Working | Requesting | Loading

  /** What a GET finds: an entry, its modifying operations, its page chunk's memory and its data in that memory. */
  datatype Look = Look(found: bool, writing: bool, deleting: bool, resident: bool, cached: bool)

  /** What a handler outside this model does with a request. */
  datatype Outcome = Finishes(code: int) | Requeues | Keeps

  /** What becomes of a request that is handed over: it is answered, put aside until the next poll, or waits. */
  datatype Verdict = Answer(status: Status) | Aside | Await(stage: Stage)

  datatype Phase = Idle | Counted | Copying | Draining

  /** The steps that producers, the poller and completions make, each indivisible. */
  datatype Step =
    | Take(order: Order) | Fill(producer: nat, b: nat) | Publish(producer: nat, b: nat)
    | Count(maxIo: nat, pendingIo: nat) | Requeue | Dequeue | Copy | Recycle | Process(look: Look,
      outcome: Outcome) | End
    | Chunk(o: nat) | Load(o: nat, failed: bool)

  /** All that the steps work on, at one moment. */
  datatype State = State(freeRing: seq<nat>, usedRing: seq<nat>, held: map<nat, Hold>, requests: seq<Request>,
    submit: seq<nat>, resubmit: seq<nat>, inFlight: map<nat, Stage>, internals: seq<Internal>, frees: seq<nat>,
    phase: Phase, processSize: nat, batch: seq<nat>, copied: nat, calls: seq<Callback>, taken: seq<Order>,
    sent: seq<nat>, callOf: map<nat, nat>, published: seq<Request>, handed: seq<Handed>, ticket: map<nat, nat>,
    answered: seq<nat>)

  // --- what each step does ---

  /** Whether a GET has an entry: as it found earlier, if it need not look again, or as it finds now. */
  predicate Finds(i: Internal, look: Look) {
    if i.noLookup then i.hasEntry else look.found
  }

  function Due(i: Internal, look: Look, outcome: Outcome): Verdict {
    if i.request.op == GET then
      if !Finds(i, look) then Answer(NotExist)
      else if look.writing || look.deleting then Aside
      else if !look.resident then Await(Requesting)
      else if look.cached then Answer(Success)
      else Await(Loading)
    else if i.request.op.UNKNOWN? then Answer(OpUnknown)
    else match outcome
      case Finishes(code) => Answer(HandlerStatus(code))
      case Requeues => Aside
      case Keeps => Await(Loading)
  }

  /** What a hand-over leaves in the object. */
  function Flagged(i: Internal, look: Look): Internal {
    if i.request.op == GET then
      i.(noLookup := i.noLookup || (Finds(i, look) && look.writing), hasEntry := Finds(i, look))
    else i
  }

  /** From s to t the first queued request has been handed over, with this verdict. */
  ghost predicate Handles(s: State, look: Look, verdict: Verdict, t: State) {
    && s.submit != [] && s.submit[0] < |s.internals| && s.submit[0] in s.ticket
    && var o, i := s.submit[0], s.internals[s.submit[0]];
       var s' := s.(submit := s.submit[1..], internals := s.internals[o := Flagged(i, look)],
         handed := s.handed + [Handed(s.ticket[o], i.request)]);
       match verdict
       case Answer(status) =>
         t == s'.(inFlight := s.inFlight - {o}, frees := [o] + s.frees, answered := s.answered + [s.ticket[o]],
           calls := s.calls + [Callback(i.request.cb, i.request.ctx, status)])
       case Aside => t == s'.(resubmit := s.resubmit + [o])
       case Await(stage) => t == s'.(inFlight := s.inFlight[o := stage])
  }

  /** What a producer's step does, when it can be made; otherwise nothing. */
  ghost predicate ProducerMoves(s: State, step: Step, t: State) {
    match step
    case Take(order) =>
      if s.freeRing == [] then t == s else
        var b := s.freeRing[0];
        t == s.(freeRing := s.freeRing[1..], held := s.held[b := Hold(order, false)], taken := s.taken + [order],
          callOf := s.callOf[b := |s.taken|])
    case Fill(producer, b) =>
      if b !in s.held || s.held[b].order.producer != producer then t == s else
        && b < |s.requests|
        && var order := s.held[b].order;
           var r := s.requests[b];
           t == s.(held := s.held[b := Hold(order, true)], requests := s.requests[b := r.(op := order.op,
             shard := order.shard, item := order.item, cb := order.cb, ctx := order.ctx)])
    case Publish(producer, b) =>
      if b !in s.held || s.held[b].order.producer != producer || !s.held[b].filled then t == s else
        && b < |s.requests| && b in s.callOf
        && t == s.(usedRing := s.usedRing + [b], held := s.held - {b}, published := s.published + [s.requests[b]],
             sent := s.sent + [s.callOf[b]])
    case _ => false
  }

  /** What a step of the poller does, when it can be made; otherwise nothing. */
  ghost predicate PollerMoves(s: State, step: Step, t: State) {
    match step
    case Count(maxIo, pendingIo) =>
      if s.phase != Idle then t == s else
        var n, io := t.processSize, if maxIo < pendingIo then 0 else maxIo - pendingIo;
        && t == s.(phase := Counted, processSize := n) && n <= |s.usedRing| && n <= |s.frees| && n <= io
        && (n == |s.usedRing| || n == |s.frees| || n == io)
    case Requeue =>
      if s.phase != Counted then t == s else
        && t == s.(submit := t.submit, resubmit := []) && |t.submit| == |s.resubmit| + |s.submit|
        && (forall j :: 0 <= j < |s.resubmit| ==> t.submit[j] == s.resubmit[|s.resubmit| - 1 - j])
        && t.submit[|s.resubmit|..] == s.submit
    case Dequeue =>
      if s.phase != Counted then t == s else
        && s.processSize <= |s.usedRing|
        && t == s.(phase := Copying, batch := s.usedRing[..s.processSize], usedRing := s.usedRing[s.processSize..],
             copied := 0)
    case Copy =>
      if s.phase != Copying || s.copied >= |s.batch| then t == s else
        && s.frees != [] && s.batch[s.copied] < |s.requests| && s.frees[0] < |s.internals|
        && |s.usedRing| + (|s.batch| - s.copied) <= |s.published|
        && var o, n := s.frees[0], |s.published| - |s.usedRing| - (|s.batch| - s.copied);
           t == s.(frees := s.frees[1..], submit := s.submit + [o], copied := s.copied + 1,
             ticket := s.ticket[o := n], internals := s.internals[o := Internal(s.requests[s.batch[s.copied]], false,
               s.internals[o].hasEntry)])
    case Recycle =>
      if s.phase != Copying || s.copied != |s.batch| then t == s else
        t == s.(phase := Draining, freeRing := s.freeRing + s.batch, batch := [], copied := 0)
    case End => if s.phase != Draining || s.submit != [] then t == s else t == s.(phase := Idle)
    case _ => false
  }

  /** What the hand-over of a request does, when one is queued to be handed over; otherwise nothing. */
  ghost predicate HandlerMoves(s: State, look: Look, outcome: Outcome, t: State) {
    if s.phase != Draining || s.submit == [] then t == s else
      && s.submit[0] < |s.internals|
      && Handles(s, look, Due(s.internals[s.submit[0]], look, outcome), t)
  }

  /** What a completion does, when it can come; otherwise nothing. */
  ghost predicate CompletionMoves(s: State, step: Step, t: State) {
    match step
    case Chunk(o) =>
      if o !in s.inFlight || s.inFlight[o] != Requesting then t == s else
        t == s.(inFlight := s.inFlight[o := Loading])
    case Load(o, failed) =>
      if o !in s.inFlight || s.inFlight[o] != Loading then t == s else
        && o < |s.internals| && o in s.ticket
        && var r := s.internals[o].request;
           t == s.(inFlight := s.inFlight - {o}, frees := [o] + s.frees, answered := s.answered + [s.ticket[o]],
             calls := s.calls + [Callback(r.cb, r.ctx, if failed then IoError else Success)])
    case _ => false
  }

  ghost predicate Moves(s: State, step: Step, t: State) {
    match step
    case Take(_) => ProducerMoves(s, step, t)
    case Fill(_, _) => ProducerMoves(s, step, t)
    case Publish(_, _) => ProducerMoves(s, step, t)
    case Chunk(_) => CompletionMoves(s, step, t)
    case Load(_, _) => CompletionMoves(s, step, t)
    case Process(look, outcome) => HandlerMoves(s, look, outcome, t)
    case _ => PollerMoves(s, step, t)
  }

  // --- what changes, part by part ---

  /** Only a completed load and a hand-over call back, at most once: a load with success or the I/O error, a GET when
      there is no entry or its data is at hand, a request of no known kind with an error, another as its handler
      says. */
  lemma MovesCalls(s: State, step: Step, t: State)
    requires Moves(s, step, t)
    ensures
      match step
      case Load(o, failed) =>
        if o in s.inFlight && s.inFlight[o] == Loading then
          && o < |s.internals|
          && t.calls == s.calls + [Callback(s.internals[o].request.cb, s.internals[o].request.ctx,
               if failed then IoError else Success)]
        else t.calls == s.calls
      case Process(look, outcome) =>
        if s.phase == Draining && s.submit != [] then
          && s.submit[0] < |s.internals|
          && var a := s.internals[s.submit[0]];
             var found := if a.noLookup then a.hasEntry else look.found;
             t.calls == s.calls +
               if a.request.op == GET then
                 if !found then [Callback(a.request.cb, a.request.ctx, NotExist)]
                 else if !look.writing && !look.deleting && look.resident && look.cached then
                   [Callback(a.request.cb, a.request.ctx, Success)]
                 else []
               else if a.request.op.UNKNOWN? then [Callback(a.request.cb, a.request.ctx, OpUnknown)]
               else if outcome.Finishes? then
                 [Callback(a.request.cb, a.request.ctx, HandlerStatus(outcome.code))]
               else []
        else t.calls == s.calls
      case _ => t.calls == s.calls
  {
  }

  /** With each call the number of the request called back is logged and its object is free again. */
  lemma MovesAnswered(s: State, step: Step, t: State)
    requires Moves(s, step, t)
    ensures
      if |t.calls| == |s.calls| then t.answered == s.answered && (step.Copy? || t.frees == s.frees) else
        && (step.Load? || (step.Process? && s.submit != []))
        && var o := if step.Load? then step.o else s.submit[0];
           && o in s.ticket && o !in t.inFlight
           && t.answered == s.answered + [s.ticket[o]] && t.frees == [o] + s.frees
  {
    hide Handles, Due;
    if step.Process? && s.phase == Draining && s.submit != [] {
      HandlesGrows(s, step.look, Due(s.internals[s.submit[0]], step.look, step.outcome), t);
    }
  }

  lemma HandlesGrows(s: State, look: Look, verdict: Verdict, t: State)
    requires Handles(s, look, verdict, t)
    ensures Extends(s, t) && s.submit != [] && s.submit[0] in s.ticket && |t.calls| <= |s.calls| + 1
    ensures
      if |t.calls| == |s.calls| then t.answered == s.answered && t.frees == s.frees else
        var o := s.submit[0];
        o !in t.inFlight && t.answered == s.answered + [s.ticket[o]] && t.frees == [o] + s.frees
  {
    hide Flagged;
  }

  /** What waits in a handler: a GET for memory and then for its data, another request as its handler says. */
  lemma MovesWaiting(s: State, step: Step, t: State)
    requires Moves(s, step, t)
    ensures
      match step
      case Process(look, outcome) =>
        if s.phase == Draining && s.submit != [] then
          var o := s.submit[0];
          && o < |s.internals|
          && var i := s.internals[o];
             var found := if i.noLookup then i.hasEntry else look.found;
             t.inFlight ==
               if i.request.op == GET then
                 if !found || (!look.writing && !look.deleting && look.resident && look.cached) then s.inFlight - {o}
                 else if look.writing || look.deleting then s.inFlight
                 else s.inFlight[o := if look.resident then Loading else Requesting]
               else if i.request.op.UNKNOWN? || outcome.Finishes? then s.inFlight - {o}
               else if outcome.Keeps? then s.inFlight[o := Loading]
               else s.inFlight
        else t.inFlight == s.inFlight
      case Chunk(o) =>
        t.inFlight == if o in s.inFlight && s.inFlight[o] == Requesting then s.inFlight[o := Loading] else s.inFlight
      case Load(o, _) =>
        t.inFlight == if o in s.inFlight && s.inFlight[o] == Loading then s.inFlight - {o} else s.inFlight
      case _ => t.inFlight == s.inFlight
  {
  }

  /** A producer's step takes the first free buffer for an order, fills the producer's own buffer, or publishes it. */
  lemma ProducerMeans(s: State, step: Step, t: State)
    requires ProducerMoves(s, step, t)
    ensures
      if step.Take? && s.freeRing != [] then
        && t.freeRing == s.freeRing[1..] && t.held == s.held[s.freeRing[0] := Hold(step.order, false)]
        && t.taken == s.taken + [step.order] && t.callOf == s.callOf[s.freeRing[0] := |s.taken|]
      else t.freeRing == s.freeRing && t.taken == s.taken && t.callOf == s.callOf
    ensures
      if step.Fill? && step.b in s.held && s.held[step.b].order.producer == step.producer then
        && t.held == s.held[step.b := Hold(s.held[step.b].order, true)] && step.b < |s.requests|
        && var o, r := s.held[step.b].order, s.requests[step.b];
           t.requests == s.requests[step.b := Request(o.op, o.shard, o.item, o.cb, o.ctx, r.scanCb, r.scanBatch)]
      else t.requests == s.requests
    ensures
      if step.Publish? && step.b in s.held && s.held[step.b].order.producer == step.producer && s.held[step.b].filled
      then
        && t.usedRing == s.usedRing + [step.b] && t.held == s.held - {step.b} && step.b < |s.requests|
        && t.published == s.published + [s.requests[step.b]]
        && step.b in s.callOf && t.sent == s.sent + [s.callOf[step.b]]
      else t.usedRing == s.usedRing && t.published == s.published && t.sent == s.sent
    ensures
      t == s.(freeRing := t.freeRing, usedRing := t.usedRing, held := t.held, requests := t.requests,
        taken := t.taken, sent := t.sent, callOf := t.callOf, published := t.published)
  {
  }

  /** The poller's course: it counts the least of what waits, what is free and what may be read, dequeues, copies one
      by one, recycles, drains, and is idle again. */
  lemma PollerCourse(s: State, step: Step, t: State)
    requires PollerMoves(s, step, t)
    ensures
      t.phase ==
        if step.Count? && s.phase == Idle then Counted
        else if step.Dequeue? && s.phase == Counted then Copying
        else if step.Recycle? && s.phase == Copying && s.copied == |s.batch| then Draining
        else if step.End? && s.phase == Draining && s.submit == [] then Idle
        else s.phase
    ensures
      if step.Count? && s.phase == Idle then
        var n, io := t.processSize, if step.maxIo < step.pendingIo then 0 else step.maxIo - step.pendingIo;
        && n <= |s.usedRing| && n <= |s.frees| && n <= io
        && (n == |s.usedRing| || n == |s.frees| || n == io)
      else t.processSize == s.processSize
  {
  }

  /** The poller's buffers: as many as were counted go from the used ring into a batch, and from there, once copied,
      to the free ring, in order. */
  lemma PollerBuffers(s: State, step: Step, t: State)
    requires PollerMoves(s, step, t)
    ensures
      if step.Dequeue? && s.phase == Counted then
        t.batch + t.usedRing == s.usedRing && |t.batch| == s.processSize && t.copied == 0 && t.freeRing == s.freeRing
      else if step.Recycle? && s.phase == Copying && s.copied == |s.batch| then
        t.freeRing == s.freeRing + s.batch && t.batch == [] && t.copied == 0 && t.usedRing == s.usedRing
      else
        && t.freeRing == s.freeRing && t.usedRing == s.usedRing && t.batch == s.batch
        && t.copied == s.copied + if step.Copy? && s.phase == Copying && s.copied < |s.batch| then 1 else 0
  {
  }

  /** The poller's objects: what is put aside comes back in front, the last first; a new request is copied into the
      first free object and queued behind. */
  lemma PollerObjects(s: State, step: Step, t: State)
    requires PollerMoves(s, step, t)
    ensures
      if step.Requeue? && s.phase == Counted then
        && t.resubmit == [] && |t.submit| == |s.resubmit| + |s.submit|
        && (forall j :: 0 <= j < |s.resubmit| ==> t.submit[j] == s.resubmit[|s.resubmit| - 1 - j])
        && t.submit[|s.resubmit|..] == s.submit
      else if step.Copy? && s.phase == Copying && s.copied < |s.batch| then
        s.frees != [] && t.submit == s.submit + [s.frees[0]] && t.resubmit == s.resubmit
      else t.submit == s.submit && t.resubmit == s.resubmit
    ensures
      if step.Copy? && s.phase == Copying && s.copied < |s.batch| then
        && s.frees != [] && s.frees[0] < |s.internals| && s.batch[s.copied] < |s.requests| && t.frees == s.frees[1..]
        && t.internals == s.internals[s.frees[0] :=
             Internal(s.requests[s.batch[s.copied]], false, s.internals[s.frees[0]].hasEntry)]
        && var n := |s.published| - |s.usedRing| - (|s.batch| - s.copied);
           0 <= n && t.ticket == s.ticket[s.frees[0] := n]
      else t.internals == s.internals && t.ticket == s.ticket && t.frees == s.frees
    ensures t.calls == s.calls && t.answered == s.answered && t.inFlight == s.inFlight && t.handed == s.handed
  {
  }

  /** A hand-over takes the first queued request; a GET behind a modification is put aside, and if that is a write it
      will not look again; another request is put aside if its handler says so. */
  lemma HandlerMeans(s: State, look: Look, outcome: Outcome, t: State)
    requires HandlerMoves(s, look, outcome, t)
    ensures
      if s.phase == Draining && s.submit != [] then
        var o := s.submit[0];
        && t.submit == s.submit[1..] && o < |s.internals| && o in s.ticket
        && var i := s.internals[o];
           var found := if i.noLookup then i.hasEntry else look.found;
           var aside := if i.request.op == GET then found && (look.writing || look.deleting)
             else !i.request.op.UNKNOWN? && outcome.Requeues?;
           && t.resubmit == (if aside then s.resubmit + [o] else s.resubmit)
           && t.internals == s.internals[o := if i.request.op == GET then
                Internal(i.request, i.noLookup || (found && look.writing), found) else i]
           && t.handed == s.handed + [Handed(s.ticket[o], i.request)]
      else t == s
  {
  }

  // --- runs ---

  /** Nothing logged is ever forgotten. */
  ghost predicate Extends(s: State, t: State) {
    && s.taken <= t.taken && s.sent <= t.sent && s.published <= t.published
    && s.handed <= t.handed && s.answered <= t.answered && s.calls <= t.calls
  }

  lemma MovesExtend(s: State, step: Step, t: State)
    requires Moves(s, step, t)
    ensures Extends(s, t)
  {
    hide ProducerMoves, PollerMoves, HandlerMoves, CompletionMoves, Extends;
    match step
    case Take(_) => ProducerExtends(s, step, t);
    case Fill(_, _) => ProducerExtends(s, step, t);
    case Publish(_, _) => ProducerExtends(s, step, t);
    case Chunk(_) => CompletionExtends(s, step, t);
    case Load(_, _) => CompletionExtends(s, step, t);
    case Process(look, outcome) => HandlerExtends(s, look, outcome, t);
    case _ => PollerExtends(s, step, t);
  }

  lemma ProducerExtends(s: State, step: Step, t: State)
    requires ProducerMoves(s, step, t)
    ensures Extends(s, t)
  {
  }

  lemma PollerExtends(s: State, step: Step, t: State)
    requires PollerMoves(s, step, t)
    ensures Extends(s, t)
  {
  }

  lemma HandlerExtends(s: State, look: Look, outcome: Outcome, t: State)
    requires HandlerMoves(s, look, outcome, t)
    ensures Extends(s, t)
  {
    hide Handles, Due;
    if s.phase == Draining && s.submit != [] {
      HandlesGrows(s, look, Due(s.internals[s.submit[0]], look, outcome), t);
    }
  }

  lemma CompletionExtends(s: State, step: Step, t: State)
    requires CompletionMoves(s, step, t)
    ensures Extends(s, t)
  {
  }

  /** Each step of the run does what it should. */
  ghost predicate Runs(trace: seq<State>, steps: seq<Step>) {
    && |trace| == |steps| + 1
    && forall i {:trigger steps[i]} :: 0 <= i < |steps| ==> Moves(trace[i], steps[i], trace[i + 1])
  }

  /** Step i made the call after the first n, and it is still there after k steps. */
  ghost predicate Origin(trace: seq<State>, k: nat, i: nat, n: nat) {
    && i < k < |trace| && |trace[i].calls| == n && |trace[i + 1].calls| == n + 1
    && trace[i + 1].calls <= trace[k].calls
  }

  lemma OriginOn(trace: seq<State>, k: nat, i: nat, n: nat)
    requires Origin(trace, k, i, n) && k + 1 < |trace| && trace[k].calls <= trace[k + 1].calls
    ensures Origin(trace, k + 1, i, n)
  {
    PrefixOn(trace[i + 1].calls, trace[k].calls, trace[k + 1].calls);
  }

  lemma OriginHere(trace: seq<State>, k: nat)
    requires k + 1 < |trace| && |trace[k + 1].calls| == |trace[k].calls| + 1
    ensures Origin(trace, k + 1, k, |trace[k].calls|)
  {
  }

  lemma PrefixOn<T>(a: seq<T>, b: seq<T>, c: seq<T>)
    requires a <= b <= c
    ensures a <= c
  {
  }

  /** The callbacks made by the first k steps were made one by one, by the steps that origin names. */
  ghost predicate CallsFrom(trace: seq<State>, k: nat, origin: seq<nat>) {
    && k < |trace| && |trace[k].calls| == |trace[0].calls| + |origin| && trace[0].calls <= trace[k].calls
    && forall j :: 0 <= j < |origin| ==> Origin(trace, k, origin[j], |trace[0].calls| + j)
  }

  lemma {:induction false} Origins(trace: seq<State>, steps: seq<Step>, k: nat) returns (origin: seq<nat>)
    requires Runs(trace, steps) && k <= |steps|
    ensures CallsFrom(trace, k, origin)
  {
    hide *;
    RunsLength(trace, steps);
    if k == 0 {
      origin := [];
      CallsNone(trace);
    } else {
      var was := Origins(trace, steps, k - 1);
      RunsAt(trace, steps, k - 1);
      CallsGrow(trace[k - 1], steps[k - 1], trace[k]);
      OriginsMore(trace, k - 1, was);
      origin := if |trace[k].calls| > |trace[k - 1].calls| then was + [k - 1] else was;
    }
  }

  lemma RunsLength(trace: seq<State>, steps: seq<Step>)
    requires Runs(trace, steps)
    ensures |trace| == |steps| + 1
  {
    hide Moves;
  }

  lemma RunsAt(trace: seq<State>, steps: seq<Step>, i: nat)
    requires Runs(trace, steps) && i < |steps|
    ensures |trace| == |steps| + 1 && Moves(trace[i], steps[i], trace[i + 1])
  {
    hide Moves;
  }

  lemma CallsNone(trace: seq<State>)
    requires trace != []
    ensures CallsFrom(trace, 0, [])
  {
  }

  lemma OriginsMore(trace: seq<State>, k: nat, origin: seq<nat>)
    requires k + 1 < |trace| && CallsFrom(trace, k, origin) && trace[k].calls <= trace[k + 1].calls
    requires |trace[k + 1].calls| <= |trace[k].calls| + 1
    ensures CallsFrom(trace, k + 1, if |trace[k + 1].calls| > |trace[k].calls| then origin + [k] else origin)
  {
    hide Origin;
    var origin' := if |trace[k + 1].calls| > |trace[k].calls| then origin + [k] else origin;
    PrefixOn(trace[0].calls, trace[k].calls, trace[k + 1].calls);
    forall j | 0 <= j < |origin'|
      ensures Origin(trace, k + 1, origin'[j], |trace[0].calls| + j)
    {
      if j < |origin| {
        OriginOn(trace, k, origin[j], |trace[0].calls| + j);
      } else {
        OriginHere(trace, k);
      }
    }
  }

  lemma CallsGrow(s: State, step: Step, t: State)
    requires Moves(s, step, t)
    ensures s.calls <= t.calls && |t.calls| <= |s.calls| + 1
  {
    MovesCalls(s, step, t);
    hide Moves;
  }

  lemma CallsFromMeans(trace: seq<State>, k: nat, origin: seq<nat>)
    requires CallsFrom(trace, k, origin)
    ensures
      && k < |trace|
      && var c, calls := |trace[0].calls|, trace[k].calls;
         && |calls| == c + |origin| && trace[0].calls <= calls
         && forall j :: 0 <= j < |origin| ==>
           && origin[j] < k && |trace[origin[j]].calls| == c + j
           && trace[origin[j] + 1].calls == calls[..c + j + 1]
  {
  }

  lemma AllCalls(trace: seq<State>, steps: seq<Step>)
    requires Runs(trace, steps)
    ensures |trace| == |steps| + 1
    ensures forall i {:trigger steps[i]} :: 0 <= i < |steps| ==>
      var s, t := trace[i], trace[i + 1];
      match steps[i]
      case Load(o, failed) =>
        if o in s.inFlight && s.inFlight[o] == Loading then
          && o < |s.internals|
          && t.calls == s.calls + [Callback(s.internals[o].request.cb, s.internals[o].request.ctx,
               if failed then IoError else Success)]
        else t.calls == s.calls
      case Process(look, outcome) =>
        if s.phase == Draining && s.submit != [] then
          && s.submit[0] < |s.internals|
          && var a := s.internals[s.submit[0]];
             var found := if a.noLookup then a.hasEntry else look.found;
             t.calls == s.calls +
               if a.request.op == GET then
                 if !found then [Callback(a.request.cb, a.request.ctx, NotExist)]
                 else if !look.writing && !look.deleting && look.resident && look.cached then
                   [Callback(a.request.cb, a.request.ctx, Success)]
                 else []
               else if a.request.op.UNKNOWN? then [Callback(a.request.cb, a.request.ctx, OpUnknown)]
               else if outcome.Finishes? then
                 [Callback(a.request.cb, a.request.ctx, HandlerStatus(outcome.code))]
               else []
        else t.calls == s.calls
      case _ => t.calls == s.calls
  {
    hide Moves;
    forall i {:trigger steps[i]} | 0 <= i < |steps| { MovesCalls(trace[i], steps[i], trace[i + 1]); }
  }

  lemma RunsMore(trace: seq<State>, steps: seq<Step>, step: Step, t: State)
    requires Runs(trace, steps) && Moves(trace[|steps|], step, t)
    ensures Runs(trace + [t], steps + [step])
  {
    hide Moves;
    var trace', steps' := trace + [t], steps + [step];
    forall i | 0 <= i < |steps'|
      ensures Moves(trace'[i], steps'[i], trace'[i + 1])
    {
      if i < |steps| {
        assert Moves(trace[i], steps[i], trace[i + 1]);
      }
    }
  }

  lemma RunsMeans(trace: seq<State>, steps: seq<Step>)
    requires Runs(trace, steps)
    ensures |trace| == |steps| + 1
    ensures forall i {:trigger steps[i]} :: 0 <= i < |steps| ==> Moves(trace[i], steps[i], trace[i + 1])
  {
  }

  lemma RunsNone(s: State)
    ensures Runs([s], []) && Extends(s, s)
  {
  }

  // --- by what a step is recognised ---

  lemma IsMove(s: State, step: Step, t: State)
    requires
      if step.Take? || step.Fill? || step.Publish? then ProducerMoves(s, step, t)
      else if step.Chunk? || step.Load? then CompletionMoves(s, step, t)
      else if step.Process? then HandlerMoves(s, step.look, step.outcome, t)
      else PollerMoves(s, step, t)
    ensures Moves(s, step, t)
  {
    hide ProducerMoves, CompletionMoves, HandlerMoves, PollerMoves;
  }

  lemma IsCopied(s: State, n: nat, t: State)
    requires
      if s.phase != Copying || s.copied >= |s.batch| then t == s else
        && s.frees != [] && s.batch[s.copied] < |s.requests| && s.frees[0] < |s.internals|
        && n == |s.published| - |s.usedRing| - (|s.batch| - s.copied)
        && t == s.(frees := s.frees[1..], submit := s.submit + [s.frees[0]], copied := s.copied + 1,
             ticket := s.ticket[s.frees[0] := n], internals := s.internals[s.frees[0] :=
               Internal(s.requests[s.batch[s.copied]], false, s.internals[s.frees[0]].hasEntry)])
    ensures PollerMoves(s, Copy, t)
  {
  }

  lemma IsCounted(s: State, maxIo: nat, pendingIo: nat, t: State)
    requires
      if s.phase != Idle then t == s else
        var n, io := t.processSize, if maxIo < pendingIo then 0 else maxIo - pendingIo;
        && t == s.(phase := Counted, processSize := n) && n <= |s.usedRing| && n <= |s.frees| && n <= io
        && (n == |s.usedRing| || n == |s.frees| || n == io)
    ensures PollerMoves(s, Count(maxIo, pendingIo), t)
  {
  }

  lemma IsRequeued(s: State, t: State)
    requires
      if s.phase != Counted then t == s else
        && t == s.(submit := t.submit, resubmit := []) && |t.submit| == |s.resubmit| + |s.submit|
        && (forall j :: 0 <= j < |s.resubmit| ==> t.submit[j] == s.resubmit[|s.resubmit| - 1 - j])
        && t.submit[|s.resubmit|..] == s.submit
    ensures PollerMoves(s, Requeue, t)
  {
  }

  lemma IsDequeued(s: State, t: State)
    requires
      if s.phase != Counted then t == s else
        && s.processSize <= |s.usedRing|
        && t == s.(phase := Copying, batch := s.usedRing[..s.processSize], usedRing := s.usedRing[s.processSize..],
             copied := 0)
    ensures PollerMoves(s, Dequeue, t)
  {
  }

  lemma IsReady(s: State, o: nat, t: State)
    requires
      t == if o in s.inFlight && s.inFlight[o] == Requesting then s.(inFlight := s.inFlight[o := Loading]) else s
    ensures CompletionMoves(s, Chunk(o), t)
  {
  }

  lemma IsLoaded(s: State, o: nat, failed: bool, t: State)
    requires
      if o !in s.inFlight || s.inFlight[o] != Loading then t == s else
        && o < |s.internals| && o in s.ticket
        && var r := s.internals[o].request;
           t == s.(inFlight := s.inFlight - {o}, frees := [o] + s.frees, answered := s.answered + [s.ticket[o]],
             calls := s.calls + [Callback(r.cb, r.ctx, if failed then IoError else Success)])
    ensures CompletionMoves(s, Load(o, failed), t)
  {
  }

  lemma ExtendsOn(s: State, t: State, u: State)
    requires Extends(s, t) && Extends(t, u)
    ensures Extends(s, u)
  {
  }

  lemma IsHandled(s: State, look: Look, outcome: Outcome, verdict: Verdict, t: State)
    requires s.submit != [] && s.submit[0] < |s.internals| && s.submit[0] in s.ticket && s.submit[0] !in s.inFlight
    requires
      t == s.(submit := s.submit[1..], resubmit := t.resubmit, inFlight := t.inFlight, calls := t.calls,
        answered := t.answered, frees := t.frees, internals := t.internals,
        handed := s.handed + [Handed(s.ticket[s.submit[0]], s.internals[s.submit[0]].request)])
    requires
      var i := s.internals[s.submit[0]];
      var found := if i.noLookup then i.hasEntry else look.found;
      && t.internals == s.internals[s.submit[0] := if i.request.op == GET then
           Internal(i.request, i.noLookup || (found && look.writing), found) else i]
      && verdict ==
           if i.request.op == GET then
             if !found then Answer(NotExist)
             else if look.writing || look.deleting then Aside
             else if !look.resident then Await(Requesting)
             else if look.cached then Answer(Success)
             else Await(Loading)
           else if i.request.op.UNKNOWN? then Answer(OpUnknown)
           else match outcome
             case Finishes(code) => Answer(HandlerStatus(code))
             case Requeues => Aside
             case Keeps => Await(Loading)
    requires
      var o := s.submit[0];
      var r := s.internals[o].request;
      match verdict
      case Answer(status) =>
        && t.calls == s.calls + [Callback(r.cb, r.ctx, status)] && t.answered == s.answered + [s.ticket[o]]
        && t.frees == [o] + s.frees && t.inFlight == s.inFlight && t.resubmit == s.resubmit
      case Aside =>
        && t.calls == s.calls && t.answered == s.answered && t.frees == s.frees
        && t.inFlight == s.inFlight && t.resubmit == s.resubmit + [o]
      case Await(stage) =>
        && t.calls == s.calls && t.answered == s.answered && t.frees == s.frees
        && t.inFlight == s.inFlight[o := stage] && t.resubmit == s.resubmit
    ensures Handles(s, look, verdict, t) && verdict == Due(s.internals[s.submit[0]], look, outcome)
  {
    assert s.inFlight - {s.submit[0]} == s.inFlight;
  }
}
