/** A poll as a whole: what it takes in, in which order it hands over, and what becomes of each hand-over. */
module Polls {
  import opened Sequences
  import opened WorkerSteps

  /** Of the queue all, the part left is still to be moved; the others are in front of was, the last first. */
  ghost predicate Requeued(all: seq<nat>, was: seq<nat>, left: seq<nat>, submit: seq<nat>) {
    && |left| <= |all| && left == all[|all| - |left|..]
    && var k := |all| - |left|;
       && |submit| == k + |was| && submit[k..] == was
       && forall j :: 0 <= j < k ==> submit[j] == all[k - 1 - j]
  }

  lemma RequeuedNone(all: seq<nat>, was: seq<nat>)
    ensures Requeued(all, was, all, was)
  {
  }

  lemma RequeuedOne(all: seq<nat>, was: seq<nat>, left: seq<nat>, submit: seq<nat>)
    requires Requeued(all, was, left, submit) && left != []
    ensures Requeued(all, was, left[1..], [left[0]] + submit)
  {
    var k, submit' := |all| - |left|, [left[0]] + submit;
    assert submit'[k + 1..] == submit[k..];
    forall j | 0 <= j < k + 1
      ensures submit'[j] == all[k - j]
    {
      if j > 0 {
        assert submit'[j] == submit[j - 1];
      }
    }
  }

  lemma RequeuedAll(all: seq<nat>, was: seq<nat>, submit: seq<nat>)
    requires Requeued(all, was, [], submit)
    ensures |submit| == |all| + |was| && submit[|all|..] == was
    ensures forall j :: 0 <= j < |all| ==> submit[j] == all[|all| - 1 - j]
  {
  }

  /** Outside taken, objects and their tickets are what they were. */
  ghost predicate Stay(was: seq<Internal>, ticket: map<nat, nat>, taken: seq<nat>, now: seq<Internal>,
        ticket': map<nat, nat>)
  {
    && |now| == |was|
    && (forall o :: 0 <= o < |was| && o !in taken ==> now[o] == was[o])
    && (forall o :: o !in taken ==> (o in ticket' <==> o in ticket))
    && (forall o :: o !in taken && o in ticket' ==> o in ticket && ticket'[o] == ticket[o])
  }

  /** The objects taken hold the requests published from number first on. */
  ghost predicate Arrive(was: seq<Internal>, taken: seq<nat>, published: seq<Request>, first: int, now: seq<Internal>,
        ticket': map<nat, nat>)
  {
    && 0 <= first && first + |taken| <= |published| && |now| == |was|
    && forall j :: 0 <= j < |taken| ==>
      && taken[j] < |was| && taken[j] in ticket' && ticket'[taken[j]] == first + j
      && now[taken[j]] == Internal(published[first + j], false, was[taken[j]].hasEntry)
  }

  lemma StayMore(was: seq<Internal>, ticket: map<nat, nat>, taken: seq<nat>, now: seq<Internal>,
        ticket': map<nat, nat>, o: nat, i: Internal, n: nat)
    requires Stay(was, ticket, taken, now, ticket') && o < |now|
    ensures Stay(was, ticket, taken + [o], now[o := i], ticket'[o := n])
  {
    assert forall x :: x !in taken + [o] ==> x !in taken && x != o;
  }

  lemma ArriveMore(was: seq<Internal>, taken: seq<nat>, published: seq<Request>, first: int, now: seq<Internal>,
        ticket': map<nat, nat>, o: nat, n: nat)
    requires Arrive(was, taken, published, first, now, ticket') && o < |now| && o !in taken
    requires n == first + |taken| < |published|
    ensures
      var i := Internal(published[n], false, was[o].hasEntry);
      Arrive(was, taken + [o], published, first, now[o := i], ticket'[o := n])
  {
  }

  /** From s, with a batch at hand, to t the first c requests of the batch have been copied: each into the next free
      object, under the number that it was published with. */
  ghost predicate Accepting(s: State, c: nat, t: State) {
    && c <= |s.batch| && c <= |s.frees|
    && t == s.(frees := s.frees[c..], submit := s.submit + s.frees[..c], copied := c, ticket := t.ticket,
         internals := t.internals)
    && Stay(s.internals, s.ticket, s.frees[..c], t.internals, t.ticket)
    && Arrive(s.internals, s.frees[..c], s.published, |s.published| - |s.usedRing| - |s.batch|, t.internals, t.ticket)
  }

  lemma AcceptingNone(s: State)
    requires s.copied == 0 && |s.usedRing| + |s.batch| <= |s.published|
    ensures Accepting(s, 0, s)
  {
    assert s.frees[..0] == [] && s.frees[0..] == s.frees && s.submit + [] == s.submit;
  }

  lemma AcceptingMore(s: State, c: nat, t: State, n: nat, u: State)
    requires Accepting(s, c, t) && Distinct(s.frees) && c < |s.batch| && t.frees != [] && t.frees[0] < |t.internals|
    requires n == |s.published| - |s.usedRing| - |s.batch| + c < |s.published|
    requires
      var o := t.frees[0];
      u == t.(frees := t.frees[1..], submit := t.submit + [o], copied := c + 1, ticket := t.ticket[o := n],
        internals := t.internals[o := Internal(s.published[n], false, t.internals[o].hasEntry)])
    ensures Accepting(s, c + 1, u)
  {
    var o, taken, first := t.frees[0], s.frees[..c], |s.published| - |s.usedRing| - |s.batch|;
    assert o == s.frees[c] && o !in taken && s.frees[..c + 1] == taken + [o] && t.frees[1..] == s.frees[c + 1..];
    assert s.submit + taken + [o] == s.submit + (taken + [o]);
    var i := Internal(s.published[n], false, t.internals[o].hasEntry);
    assert t.internals[o] == s.internals[o];
    StayMore(s.internals, s.ticket, taken, t.internals, t.ticket, o, i, n);
    ArriveMore(s.internals, taken, s.published, first, t.internals, t.ticket, o, n);
    hide Stay, Arrive;
  }

  /** In front of the queue as it was in s stands what was put aside, the last first, and behind it the objects
      taken. */
  ghost predicate LinedUp(s: State, taken: seq<nat>, queue: seq<nat>) {
    var q := |s.resubmit|;
    && |queue| == q + |s.submit| + |taken|
    && (forall j :: 0 <= j < q ==> queue[j] == s.resubmit[q - 1 - j])
    && queue[q..q + |s.submit|] == s.submit && queue[q + |s.submit|..] == taken
  }

  lemma LinesUp(s: State, taken: seq<nat>, queue: seq<nat>)
    requires |queue| == |s.resubmit| + |s.submit| && queue[|s.resubmit|..] == s.submit
    requires forall j :: 0 <= j < |s.resubmit| ==> queue[j] == s.resubmit[|s.resubmit| - 1 - j]
    ensures LinedUp(s, taken, queue + taken)
  {
    var q, r := |s.resubmit|, queue + taken;
    assert r[q..q + |s.submit|] == queue[q..];
    assert r[q + |s.submit|..] == taken;
  }

  /** From s to t a poll has taken in n requests and is about to hand over all that is queued. */
  ghost predicate TakenIn(s: State, n: nat, t: State) {
    && n <= |s.usedRing| <= |s.published| && n <= |s.frees|
    && LinedUp(s, s.frees[..n], t.submit)
    && Stay(s.internals, s.ticket, s.frees[..n], t.internals, t.ticket)
    && Arrive(s.internals, s.frees[..n], s.published, |s.published| - |s.usedRing|, t.internals, t.ticket)
    && t == s.(phase := Draining, processSize := n, freeRing := s.freeRing + s.usedRing[..n],
         usedRing := s.usedRing[n..], frees := s.frees[n..], submit := t.submit, resubmit := [], ticket := t.ticket,
         internals := t.internals)
  }

  /** From s to t a poll has counted n requests, has put in front what was put aside, and has the batch at hand. */
  ghost predicate Begun(s: State, n: nat, t: State) {
    && n <= |s.usedRing| <= |s.published| && s.batch == [] && s.copied == 0
    && |t.submit| == |s.resubmit| + |s.submit| && t.submit[|s.resubmit|..] == s.submit
    && (forall j :: 0 <= j < |s.resubmit| ==> t.submit[j] == s.resubmit[|s.resubmit| - 1 - j])
    && t == s.(phase := Copying, processSize := n, usedRing := s.usedRing[n..], batch := s.usedRing[..n],
         submit := t.submit, resubmit := [])
  }

  lemma HasRequeued(all: seq<nat>, was: seq<nat>, submit: seq<nat>)
    requires |submit| == |all| + |was| && submit[|all|..] == was
    requires forall j :: 0 <= j < |all| ==> submit[j] == all[|all| - 1 - j]
    ensures Requeued(all, was, [], submit)
  {
  }

  lemma HasBegun(s: State, n: nat, t: State)
    requires n <= |s.usedRing| <= |s.published| && s.batch == [] && s.copied == 0
    requires Requeued(s.resubmit, s.submit, [], t.submit)
    requires t == s.(phase := Copying, processSize := n, usedRing := s.usedRing[n..], batch := s.usedRing[..n],
      submit := t.submit, resubmit := [])
    ensures Begun(s, n, t)
  {
  }

  lemma BegunBatch(s: State, n: nat, t: State)
    requires Begun(s, n, t)
    ensures Accepting(t, 0, t) && |t.batch| == n
  {
    AcceptingNone(t);
  }

  lemma AcceptingSame(s: State, c: nat, t: State)
    requires Accepting(s, c, t)
    ensures t.published == s.published && t.usedRing == s.usedRing && t.batch == s.batch
  {
  }

  ghost predicate LeastOf(n: nat, waiting: nat, objects: nat, maxIo: nat, pendingIo: nat) {
    var io := if maxIo < pendingIo then 0 else maxIo - pendingIo;
    n <= waiting && n <= objects && n <= io && (n == waiting || n == objects || n == io)
  }

  lemma IsLeast(n: nat, waiting: nat, objects: nat, maxIo: nat, pendingIo: nat)
    ensures
      var io := if maxIo < pendingIo then 0 else maxIo - pendingIo;
      LeastOf(n, waiting, objects, maxIo, pendingIo) <==>
        n <= waiting && n <= objects && n <= io && (n == waiting || n == objects || n == io)
  {
  }

  lemma AllTakenIn(s: State, n: nat, s1: State, t: State, u: State)
    requires Begun(s, n, s1) && Accepting(s1, n, t)
    requires u == t.(phase := Draining, freeRing := t.freeRing + t.batch, batch := [], copied := 0)
    ensures TakenIn(s, n, u)
  {
    hide Stay, Arrive, LinedUp;
    LinesUp(s, s.frees[..n], s1.submit);
  }

  /** What the queue is when the handing over begins. */
  lemma QueueIs(s: State, n: nat, a: State)
    requires TakenIn(s, n, a)
    ensures n <= |s.usedRing| <= |s.published| && n <= |s.frees|
    ensures
      var q, p := |s.resubmit|, |s.submit|;
      && |a.submit| == q + p + n && (forall j :: 0 <= j < q ==> a.submit[j] == s.resubmit[q - 1 - j])
      && a.submit[q..q + p] == s.submit && a.submit[q + p..] == s.frees[..n]
  {
    hide Stay, Arrive;
  }

  lemma TakenInRest(s: State, n: nat, a: State)
    requires TakenIn(s, n, a)
    ensures n <= |s.usedRing| && n <= |s.frees|
    ensures
      a == s.(phase := Draining, processSize := n, freeRing := s.freeRing + s.usedRing[..n],
        usedRing := s.usedRing[n..], frees := s.frees[n..], submit := a.submit, resubmit := [], ticket := a.ticket,
        internals := a.internals)
  {
    hide Stay, Arrive, LinedUp;
  }

  lemma StayAt(was: seq<Internal>, ticket: map<nat, nat>, taken: seq<nat>, now: seq<Internal>,
        ticket': map<nat, nat>, o: nat)
    requires Stay(was, ticket, taken, now, ticket') && o !in taken
    ensures |now| == |was| && (o < |was| ==> now[o] == was[o])
    ensures o in ticket' ==> o in ticket && ticket'[o] == ticket[o]
  {
  }

  lemma ArriveAt(was: seq<Internal>, taken: seq<nat>, published: seq<Request>, first: int, now: seq<Internal>,
        ticket': map<nat, nat>, j: nat)
    requires Arrive(was, taken, published, first, now, ticket') && j < |taken|
    ensures |now| == |was| && 0 <= first + j < |published| && taken[j] < |was|
    ensures taken[j] in ticket' && ticket'[taken[j]] == first + j
    ensures now[taken[j]] == Internal(published[first + j], false, was[taken[j]].hasEntry)
  {
  }

  lemma TakenInParts(s: State, n: nat, a: State)
    requires TakenIn(s, n, a)
    ensures n <= |s.frees| && n <= |s.usedRing| <= |s.published|
    ensures Stay(s.internals, s.ticket, s.frees[..n], a.internals, a.ticket)
    ensures Arrive(s.internals, s.frees[..n], s.published, |s.published| - |s.usedRing|, a.internals, a.ticket)
  {
  }

  /** A request that was put aside or queued is as it was. */
  lemma CarriedOld(s: State, n: nat, a: State, i: nat)
    requires TakenIn(s, n, a) && Distinct(a.submit) && i < |s.resubmit| + |s.submit|
    ensures i < |a.submit| && |a.internals| == |s.internals|
    ensures
      var o := a.submit[i];
      && (o in a.ticket ==> o in s.ticket && a.ticket[o] == s.ticket[o])
      && (o < |s.internals| ==> a.internals[o] == s.internals[o])
  {
    hide *;
    QueueTail(s, n, a);
    TakenInParts(s, n, a);
    NotBehind(a.submit, |s.resubmit| + |s.submit|, s.frees[..n], i);
    StayAt(s.internals, s.ticket, s.frees[..n], a.internals, a.ticket, a.submit[i]);
  }

  /** A new request is as it was published. */
  lemma CarriedNew(s: State, n: nat, a: State, j: nat)
    requires TakenIn(s, n, a) && j < n
    ensures n <= |s.usedRing| <= |s.published| && |a.internals| == |s.internals|
    ensures |a.submit| == |s.resubmit| + |s.submit| + n
    ensures
      var o, number := a.submit[|s.resubmit| + |s.submit| + j], |s.published| - |s.usedRing| + j;
      && number < |s.published| && o < |s.internals| && o in a.ticket && a.ticket[o] == number
      && a.internals[o] == Internal(s.published[number], false, s.internals[o].hasEntry)
  {
    hide *;
    QueueNew(s, n, a, j);
    TakenInParts(s, n, a);
    ArriveAt(s.internals, s.frees[..n], s.published, |s.published| - |s.usedRing|, a.internals, a.ticket, j);
  }

  lemma QueueTail(s: State, n: nat, a: State)
    requires TakenIn(s, n, a)
    ensures n <= |s.frees| && |a.submit| == |s.resubmit| + |s.submit| + n && |a.internals| == |s.internals|
    ensures a.submit[|s.resubmit| + |s.submit|..] == s.frees[..n]
  {
    hide *;
    QueueIs(s, n, a);
    TakenInSize(s, n, a);
  }

  lemma QueueNew(s: State, n: nat, a: State, j: nat)
    requires TakenIn(s, n, a) && j < n
    ensures n <= |s.frees| && |a.submit| == |s.resubmit| + |s.submit| + n && |a.internals| == |s.internals|
    ensures a.submit[|s.resubmit| + |s.submit| + j] == s.frees[..n][j]
  {
    hide *;
    QueueTail(s, n, a);
    TailAt(a.submit, |s.resubmit| + |s.submit|, s.frees[..n], j);
  }

  lemma TailAt(queue: seq<nat>, k: nat, tail: seq<nat>, j: nat)
    requires k <= |queue| && queue[k..] == tail && j < |tail|
    ensures |queue| == k + |tail| && queue[k + j] == tail[j]
  {
  }

  lemma NotBehind(queue: seq<nat>, k: nat, taken: seq<nat>, i: nat)
    requires Distinct(queue) && i < k <= |queue| && queue[k..] == taken
    ensures queue[i] !in taken
  {
    forall j | 0 <= j < |taken|
      ensures taken[j] != queue[i]
    {
      assert taken[j] == queue[k + j];
    }
  }

  /** One hand-over after the other, each with the verdict that is due. */
  ghost predicate Drains(trace: seq<State>, look: nat -> Look, outcome: nat -> Outcome, verdicts: seq<Verdict>) {
    && |trace| == |verdicts| + 1
    && forall i :: 0 <= i < |verdicts| ==> HandsOver(trace[i], look(i), outcome(i), verdicts[i], trace[i + 1])
  }

  ghost predicate HandsOver(s: State, look: Look, outcome: Outcome, verdict: Verdict, t: State) {
    && Handles(s, look, verdict, t) && s.submit != [] && s.submit[0] < |s.internals|
    && verdict == Due(s.internals[s.submit[0]], look, outcome)
  }

  lemma DrainsMore(trace: seq<State>, look: nat -> Look, outcome: nat -> Outcome, verdicts: seq<Verdict>,
        verdict: Verdict, t: State)
    requires Drains(trace, look, outcome, verdicts)
    requires HandsOver(trace[|verdicts|], look(|verdicts|), outcome(|verdicts|), verdict, t)
    ensures Drains(trace + [t], look, outcome, verdicts + [verdict])
  {
    hide HandsOver;
    var trace', verdicts' := trace + [t], verdicts + [verdict];
    forall i | 0 <= i < |verdicts'|
      ensures HandsOver(trace'[i], look(i), outcome(i), verdicts'[i], trace'[i + 1])
    {
      if i < |verdicts| {
        assert HandsOver(trace[i], look(i), outcome(i), verdicts[i], trace[i + 1]);
      }
    }
  }

  /** Handing over the first leaves the others as they are. */
  lemma HandsOverRest(s: State, look: Look, outcome: Outcome, verdict: Verdict, t: State)
    requires HandsOver(s, look, outcome, verdict, t) && Distinct(s.submit)
    ensures t.submit == s.submit[1..] && t.ticket == s.ticket && |t.internals| == |s.internals|
    ensures s.submit[0] in s.ticket
    ensures t.handed == s.handed + [Handed(s.ticket[s.submit[0]], s.internals[s.submit[0]].request)]
    ensures forall j :: 0 < j < |s.submit| && s.submit[j] < |s.internals| ==>
      t.internals[s.submit[j]] == s.internals[s.submit[j]]
  {
    hide Due, Flagged;
  }

  /** After i hand-overs the rest of the queue is still as it was at the start. */
  lemma {:induction false} DrainedBy(trace: seq<State>, look: nat -> Look, outcome: nat -> Outcome,
        verdicts: seq<Verdict>, i: nat)
    requires Drains(trace, look, outcome, verdicts) && Distinct(trace[0].submit) && i <= |verdicts|
    ensures i <= |trace[0].submit| && trace[i].submit == trace[0].submit[i..] && trace[i].ticket == trace[0].ticket
    ensures |trace[i].internals| == |trace[0].internals|
    ensures forall j :: i <= j < |trace[0].submit| && trace[0].submit[j] < |trace[0].internals| ==>
      trace[i].internals[trace[0].submit[j]] == trace[0].internals[trace[0].submit[j]]
    ensures |trace[i].handed| == |trace[0].handed| + i && trace[0].handed <= trace[i].handed
    ensures forall j :: 0 <= j < i ==>
      && trace[0].submit[j] in trace[0].ticket && trace[0].submit[j] < |trace[0].internals|
      && trace[i].handed[|trace[0].handed| + j] ==
           Handed(trace[0].ticket[trace[0].submit[j]], trace[0].internals[trace[0].submit[j]].request)
  {
    if i > 0 {
      DrainedBy(trace, look, outcome, verdicts, i - 1);
      var s, t, queue := trace[i - 1], trace[i], trace[0].submit;
      assert HandsOver(s, look(i - 1), outcome(i - 1), verdicts[i - 1], trace[i - 1 + 1]);
      assert s.submit != [] && s.submit[0] < |s.internals|;
      assert s.submit[0] == queue[i - 1];
      HandsOverRest(s, look(i - 1), outcome(i - 1), verdicts[i - 1], t);
      hide Drains, HandsOver;
      forall j | i <= j < |queue| && queue[j] < |trace[0].internals|
        ensures t.internals[queue[j]] == trace[0].internals[queue[j]]
      {
        assert queue[j] == s.submit[j - (i - 1)];
      }
    }
  }

  /** What becomes of hand-over i, in terms of what was known at the start. */
  lemma EventAt(trace: seq<State>, look: nat -> Look, outcome: nat -> Outcome, verdicts: seq<Verdict>, i: nat)
    requires Drains(trace, look, outcome, verdicts) && Distinct(trace[0].submit) && i < |verdicts|
    ensures
      && i < |trace[0].submit| && trace[0].submit[i] < |trace[0].internals| && trace[0].submit[i] in trace[0].ticket
    ensures
      var a := trace[0].internals[trace[0].submit[i]];
      var found := if a.noLookup then a.hasEntry else look(i).found;
      verdicts[i] ==
        if a.request.op == GET then
          if !found then Answer(NotExist)
          else if look(i).writing || look(i).deleting then Aside
          else if !look(i).resident then Await(Requesting)
          else if look(i).cached then Answer(Success)
          else Await(Loading)
        else if a.request.op.UNKNOWN? then Answer(OpUnknown)
        else match outcome(i)
          case Finishes(code) => Answer(HandlerStatus(code))
          case Requeues => Aside
          case Keeps => Await(Loading)
    ensures
      && Handles(trace[i], look(i), verdicts[i], trace[i + 1])
      && var r := trace[0].internals[trace[0].submit[i]].request;
         trace[i + 1].calls == trace[i].calls +
           if verdicts[i].Answer? then [Callback(r.cb, r.ctx, verdicts[i].status)] else []
  {
    DrainedBy(trace, look, outcome, verdicts, i);
    assert HandsOver(trace[i], look(i), outcome(i), verdicts[i], trace[i + 1]);
    assert trace[i].submit[0] == trace[0].submit[i];
    hide Drains;
  }

  lemma AllEvents(trace: seq<State>, look: nat -> Look, outcome: nat -> Outcome, verdicts: seq<Verdict>)
    requires Drains(trace, look, outcome, verdicts) && Distinct(trace[0].submit) && |verdicts| == |trace[0].submit|
    ensures forall i :: 0 <= i < |verdicts| ==>
      trace[0].submit[i] < |trace[0].internals| && trace[0].submit[i] in trace[0].ticket
    ensures forall i :: 0 <= i < |verdicts| ==>
      var a := trace[0].internals[trace[0].submit[i]];
      var found := if a.noLookup then a.hasEntry else look(i).found;
      verdicts[i] ==
        if a.request.op == GET then
          if !found then Answer(NotExist)
          else if look(i).writing || look(i).deleting then Aside
          else if !look(i).resident then Await(Requesting)
          else if look(i).cached then Answer(Success)
          else Await(Loading)
        else if a.request.op.UNKNOWN? then Answer(OpUnknown)
        else match outcome(i)
          case Finishes(code) => Answer(HandlerStatus(code))
          case Requeues => Aside
          case Keeps => Await(Loading)
    ensures forall i :: 0 <= i < |verdicts| ==>
      && Handles(trace[i], look(i), verdicts[i], trace[i + 1])
      && var r := trace[0].internals[trace[0].submit[i]].request;
         trace[i + 1].calls == trace[i].calls +
           if verdicts[i].Answer? then [Callback(r.cb, r.ctx, verdicts[i].status)] else []
  {
    hide *;
    forall i {:trigger trace[0].submit[i]} | 0 <= i < |verdicts| { EventAt(trace, look, outcome, verdicts, i); }
  }

  lemma AllCarried(s: State, n: nat, a: State)
    requires TakenIn(s, n, a) && Distinct(a.submit)
    requires forall i :: 0 <= i < |a.submit| ==> a.submit[i] < |a.internals| && a.submit[i] in a.ticket
    ensures n <= |s.usedRing| <= |s.published| && |a.internals| == |s.internals|
    ensures forall i :: 0 <= i < |a.submit| ==>
      var o, k := a.submit[i], |s.resubmit| + |s.submit|;
      if i < k then o in s.ticket && a.ticket[o] == s.ticket[o] && a.internals[o] == s.internals[o] else
        var number := |s.published| - |s.usedRing| + (i - k);
        && a.ticket[o] == number < |s.published|
        && a.internals[o] == Internal(s.published[number], false, s.internals[o].hasEntry)
  {
    hide *;
    QueueIs(s, n, a);
    TakenInSize(s, n, a);
    forall i | 0 <= i < |a.submit|
      ensures
        var o, k := a.submit[i], |s.resubmit| + |s.submit|;
        if i < k then o in s.ticket && a.ticket[o] == s.ticket[o] && a.internals[o] == s.internals[o] else
          var number := |s.published| - |s.usedRing| + (i - k);
          && a.ticket[o] == number < |s.published|
          && a.internals[o] == Internal(s.published[number], false, s.internals[o].hasEntry)
    {
      var k := |s.resubmit| + |s.submit|;
      if i < k {
        CarriedOld(s, n, a, i);
      } else {
        CarriedNew(s, n, a, i - k);
      }
    }
  }

  lemma TakenInSize(s: State, n: nat, a: State)
    requires TakenIn(s, n, a)
    ensures |a.internals| == |s.internals|
  {
  }

  lemma DrainsNone(s: State, look: nat -> Look, outcome: nat -> Outcome)
    ensures Drains([s], look, outcome, [])
  {
  }

  lemma IsHandsOver(s: State, look: Look, outcome: Outcome, verdict: Verdict, t: State)
    requires Handles(s, look, verdict, t) && s.submit != [] && s.submit[0] < |s.internals|
    requires verdict == Due(s.internals[s.submit[0]], look, outcome)
    ensures HandsOver(s, look, outcome, verdict, t)
  {
  }

  lemma OnceDistinct(s: seq<nat>)
    requires forall x: nat :: multiset(s)[x] <= 1
    ensures Distinct(s)
  {
    forall i, j | 0 <= i < j < |s|
      ensures s[i] != s[j]
    {
      assert s == s[..j] + s[j..];
      assert s[..j][i] == s[i] && s[j..][0] == s[j];
      assert s[i] in multiset(s[..j]) && s[j] in multiset(s[j..]);
      assert multiset(s)[s[i]] == multiset(s[..j])[s[i]] + multiset(s[j..])[s[i]];
    }
  }
}
