/** The request protocol: producers and the worker exchange request buffers over two rings, and the worker carries
    each request in an object of its pool until its callback has been called. */
module Workers {
  import opened Sequences
  import opened Pools
  import opened WorkerSteps
  import opened Polls

  // --- who has what ---

  /** Every buffer in circulation is in exactly one place, once. */
  ghost predicate BuffersPart(free: seq<nat>, used: seq<nat>, held: set<nat>, batch: seq<nat>, n: nat) {
    multiset(free) + multiset(used) + multiset(held) + multiset(batch) == multiset(Upto(n))
  }

  lemma BufferCounts(free: seq<nat>, used: seq<nat>, held: set<nat>, batch: seq<nat>, n: nat)
    requires BuffersPart(free, used, held, batch, n)
    ensures |free| + |used| + |held| + |batch| == n
  {
    assert |multiset(free) + multiset(used) + multiset(held) + multiset(batch)| == |multiset(Upto(n))|;
  }

  lemma BufferKnown(free: seq<nat>, used: seq<nat>, held: set<nat>, batch: seq<nat>, n: nat, b: nat)
    requires BuffersPart(free, used, held, batch, n)
    ensures b in free || b in used || b in held || b in batch ==> b < n
    ensures b in held ==> b !in free && b !in used && b !in batch
  {
    var all := multiset(free) + multiset(used) + multiset(held) + multiset(batch);
    assert all[b] == multiset(Upto(n))[b];
    UptoOnce(n, b);
  }

  /** The objects handed out by the pool are each in exactly one queue or in the hands of a handler. */
  ghost predicate ObjectsPart(out: set<nat>, submit: seq<nat>, resubmit: seq<nat>, inFlight: set<nat>) {
    multiset(submit) + multiset(resubmit) + multiset(inFlight) == multiset(out)
  }

  lemma ObjectCounts(out: set<nat>, submit: seq<nat>, resubmit: seq<nat>, inFlight: set<nat>)
    requires ObjectsPart(out, submit, resubmit, inFlight)
    ensures |submit| + |resubmit| + |inFlight| == |out|
  {
    assert |multiset(submit) + multiset(resubmit) + multiset(inFlight)| == |multiset(out)|;
  }

  lemma ObjectKnown(out: set<nat>, submit: seq<nat>, resubmit: seq<nat>, inFlight: set<nat>, o: nat)
    requires ObjectsPart(out, submit, resubmit, inFlight)
    ensures o in submit || o in resubmit || o in inFlight <==> o in out
    ensures o in inFlight ==> o !in submit && o !in resubmit
    ensures o in submit ==> o !in resubmit && o !in inFlight
  {
    var all := multiset(submit) + multiset(resubmit) + multiset(inFlight);
    assert all[o] == multiset(out)[o];
  }

  lemma PopHead(q: seq<nat>, k: nat)
    requires k <= |q|
    ensures multiset(q) == multiset(q[..k]) + multiset(q[k..])
  {
    assert q == q[..k] + q[k..];
  }

  // --- whose request an object carries ---

  /** Of the first n requests, each has been answered or is carried by one object, and every object carries one. */
  ghost predicate Carried(ticket: map<nat, nat>, carrier: map<nat, nat>, live: set<nat>, answered: seq<nat>, n: nat) {
    && Distinct(answered) && Under(answered, n)
    && (forall o :: o in live ==>
      o in ticket && ticket[o] < n && ticket[o] !in answered && ticket[o] in carrier && carrier[ticket[o]] == o)
    && (forall t :: 0 <= t < n ==> t in answered || (t in carrier && carrier[t] in live && ticket[carrier[t]] == t))
  }

  lemma CarriedAccept(ticket: map<nat, nat>, carrier: map<nat, nat>, live: set<nat>, answered: seq<nat>, n: nat, o: nat)
    requires Carried(ticket, carrier, live, answered, n) && o !in live
    ensures Carried(ticket[o := n], carrier[n := o], live + {o}, answered, n + 1)
  {
    assert n !in answered;
  }

  lemma CarriedAnswer(ticket: map<nat, nat>, carrier: map<nat, nat>, live: set<nat>, answered: seq<nat>, n: nat, o: nat)
    requires Carried(ticket, carrier, live, answered, n) && o in live
    ensures Carried(ticket, carrier, live - {o}, answered + [ticket[o]], n)
  {
    var answered' := answered + [ticket[o]];
    forall x | x in live - {o}
      ensures ticket[x] !in answered'
    {
      assert carrier[ticket[x]] == x && carrier[ticket[o]] == o;
    }
    forall t | 0 <= t < n
      ensures t in answered' || (t in carrier && carrier[t] in live - {o} && ticket[carrier[t]] == t)
    {
      if t in answered {
        assert t in answered';
      } else if carrier[t] == o {
        assert answered'[|answered|] == t;
      }
    }
  }

  /** Once nothing is carried, every request has been answered exactly once. */
  lemma AllAnswered(ticket: map<nat, nat>, carrier: map<nat, nat>, answered: seq<nat>, n: nat)
    requires Carried(ticket, carrier, {}, answered, n)
    ensures multiset(answered) == multiset(Upto(n))
  {
    forall t: nat
      ensures multiset(answered)[t] == multiset(Upto(n))[t]
    {
      UptoOnce(n, t);
      DistinctOnce(answered, t);
    }
  }

  // --- what the buffers hold ---

  /** From place i on, queue lists buffers that hold the requests published from number first on, in that order. */
  ghost predicate Holding(requests: seq<Request>, queue: seq<nat>, i: nat, published: seq<Request>, first: int) {
    && 0 <= first && i <= |queue| && first + |queue| - i <= |published|
    && forall j :: i <= j < |queue| ==> queue[j] < |requests| && requests[queue[j]] == published[first + j - i]
  }

  /** Every live object holds the request whose number it carries. */
  ghost predicate Copies(internals: seq<Internal>, ticket: map<nat, nat>, live: set<nat>, published: seq<Request>) {
    forall o :: o in live ==>
      && o in ticket && o < |internals| && ticket[o] < |published|
      && internals[o].request == published[ticket[o]] && (internals[o].noLookup ==> internals[o].hasEntry)
  }

  /** Each call made was to the callback, with the context, that the producer of the answered request gave. */
  ghost predicate Answers(calls: seq<Callback>, answered: seq<nat>, published: seq<Request>) {
    |calls| == |answered| && forall j :: 0 <= j < |calls| ==>
      answered[j] < |published| && calls[j].cb == published[answered[j]].cb
        && calls[j].ctx == published[answered[j]].ctx
  }

  /** The request has the fields of the order. */
  ghost predicate Carries(r: Request, o: Order) {
    r.op == o.op && r.shard == o.shard && r.item == o.item && r.cb == o.cb && r.ctx == o.ctx
  }

  lemma CarriesMeans(r: Request, o: Order)
    ensures Carries(r, o) <==>
      r.op == o.op && r.shard == o.shard && r.item == o.item && r.cb == o.cb && r.ctx == o.ctx
  {
  }

  /** Every held buffer belongs to one of the calls made, and once filled in it has that call's fields. */
  ghost predicate HeldAs(requests: seq<Request>, held: map<nat, Hold>, callOf: map<nat, nat>, taken: seq<Order>) {
    forall b :: b in held ==>
      && b in callOf && callOf[b] < |taken| && taken[callOf[b]] == held[b].order
      && (held[b].filled ==> b < |requests| && Carries(requests[b], held[b].order))
  }

  /** Each published request has the fields of the call that published it. */
  ghost predicate SentAs(published: seq<Request>, sent: seq<nat>, taken: seq<Order>) {
    |sent| == |published| && forall i :: 0 <= i < |sent| ==> sent[i] < |taken| && Carries(published[i], taken[sent[i]])
  }

  /** Each request was handed over with the fields that it was published with. */
  ghost predicate HandedAs(handed: seq<Handed>, published: seq<Request>) {
    forall i :: 0 <= i < |handed| ==> handed[i].ticket < |published| && handed[i].request == published[handed[i].ticket]
  }

  ghost predicate Met(handed: seq<Handed>, t: nat) {
    exists i :: 0 <= i < |handed| && handed[i].ticket == t
  }

  /** What is answered, in the hands of a handler or put aside has been handed over before. */
  ghost predicate Seen(handed: seq<Handed>, answered: seq<nat>, ticket: map<nat, nat>, inFlight: set<nat>,
        resubmit: seq<nat>)
  {
    && (forall j :: 0 <= j < |answered| ==> Met(handed, answered[j]))
    && (forall o :: o in inFlight ==> o in ticket && Met(handed, ticket[o]))
    && (forall j :: 0 <= j < |resubmit| ==> resubmit[j] in ticket && Met(handed, ticket[resubmit[j]]))
  }

  lemma HeldTaken(requests: seq<Request>, held: map<nat, Hold>, callOf: map<nat, nat>, taken: seq<Order>, b: nat,
        order: Order)
    requires HeldAs(requests, held, callOf, taken)
    ensures HeldAs(requests, held[b := Hold(order, false)], callOf[b := |taken|], taken + [order])
  {
  }

  lemma HeldFilled(requests: seq<Request>, held: map<nat, Hold>, callOf: map<nat, nat>, taken: seq<Order>, b: nat,
        r: Request)
    requires HeldAs(requests, held, callOf, taken) && b in held && b < |requests| && Carries(r, held[b].order)
    ensures HeldAs(requests[b := r], held[b := held[b].(filled := true)], callOf, taken)
  {
  }

  lemma HeldGiven(requests: seq<Request>, held: map<nat, Hold>, callOf: map<nat, nat>, taken: seq<Order>, b: nat)
    requires HeldAs(requests, held, callOf, taken)
    ensures HeldAs(requests, held - {b}, callOf, taken)
  {
  }

  lemma SentTaken(published: seq<Request>, sent: seq<nat>, taken: seq<Order>, order: Order)
    requires SentAs(published, sent, taken)
    ensures SentAs(published, sent, taken + [order])
  {
  }

  lemma SentMore(published: seq<Request>, sent: seq<nat>, taken: seq<Order>, r: Request, call: nat)
    requires SentAs(published, sent, taken) && call < |taken| && Carries(r, taken[call])
    ensures SentAs(published + [r], sent + [call], taken)
  {
  }

  lemma HandedOver(handed: seq<Handed>, published: seq<Request>, t: nat)
    requires HandedAs(handed, published) && t < |published|
    ensures HandedAs(handed + [Handed(t, published[t])], published)
  {
  }

  lemma HandedPublished(handed: seq<Handed>, published: seq<Request>, r: Request)
    requires HandedAs(handed, published)
    ensures HandedAs(handed, published + [r])
  {
  }

  lemma SeenHanded(handed: seq<Handed>, answered: seq<nat>, ticket: map<nat, nat>, inFlight: set<nat>,
        resubmit: seq<nat>,
      o: nat, r: Request)
    requires Seen(handed, answered, ticket, inFlight, resubmit) && o in ticket
    ensures Seen(handed + [Handed(ticket[o], r)], answered, ticket, inFlight + {o}, resubmit)
  {
    var handed' := handed + [Handed(ticket[o], r)];
    assert handed'[|handed|].ticket == ticket[o];
    assert Met(handed', ticket[o]);
    forall t | Met(handed, t)
      ensures Met(handed', t)
    {
      var i :| 0 <= i < |handed| && handed[i].ticket == t;
      assert handed'[i].ticket == t;
    }
  }

  lemma SeenAnswered(handed: seq<Handed>, answered: seq<nat>, ticket: map<nat, nat>, inFlight: set<nat>,
        resubmit: seq<nat>, o: nat)
    requires Seen(handed, answered, ticket, inFlight, resubmit) && o in inFlight
    ensures o in ticket && Seen(handed, answered + [ticket[o]], ticket, inFlight - {o}, resubmit)
  {
  }

  lemma SeenAside(handed: seq<Handed>, answered: seq<nat>, ticket: map<nat, nat>, inFlight: set<nat>,
        resubmit: seq<nat>, o: nat)
    requires Seen(handed, answered, ticket, inFlight, resubmit) && o in inFlight
    ensures Seen(handed, answered, ticket, inFlight - {o}, resubmit + [o])
  {
  }

  lemma SeenLess(handed: seq<Handed>, answered: seq<nat>, ticket: map<nat, nat>, inFlight: set<nat>, resubmit: seq<nat>)
    requires Seen(handed, answered, ticket, inFlight, resubmit) && resubmit != []
    ensures Seen(handed, answered, ticket, inFlight, resubmit[1..])
  {
  }

  lemma SeenAccepted(handed: seq<Handed>, answered: seq<nat>, ticket: map<nat, nat>, inFlight: set<nat>,
        resubmit: seq<nat>,
      o: nat, n: nat)
    requires Seen(handed, answered, ticket, inFlight, resubmit) && o !in inFlight && o !in resubmit
    ensures Seen(handed, answered, ticket[o := n], inFlight, resubmit)
  {
  }

  lemma TakenBuffer(free: seq<nat>, used: seq<nat>, held: set<nat>, batch: seq<nat>, n: nat)
    requires BuffersPart(free, used, held, batch, n) && free != []
    ensures BuffersPart(free[1..], used, held + {free[0]}, batch, n) && free[0] !in held
  {
    PopHead(free, 1);
    assert free[..1] == [free[0]];
    BufferKnown(free, used, held, batch, n, free[0]);
  }

  lemma GivenBuffer(free: seq<nat>, used: seq<nat>, held: set<nat>, batch: seq<nat>, n: nat, b: nat)
    requires BuffersPart(free, used, held, batch, n) && b in held
    ensures BuffersPart(free, used + [b], held - {b}, batch, n)
  {
  }

  lemma InitialParts(requests: seq<Request>, internals: seq<Internal>, n: nat)
    ensures BuffersPart(Upto(n), [], {}, [], n) && ObjectsPart({}, [], [], {}) && Holding(requests, [], 0, [], 0)
    ensures Copies(internals, map[], {}, []) && Carried(map[], map[], {}, [], 0) && Answers([], [], [])
    ensures Upto(0) == []
  {
  }

  /** Taking k buffers off the ring into an empty batch. */
  lemma Dequeued(free: seq<nat>, used: seq<nat>, held: set<nat>, n: nat, k: nat, requests: seq<Request>,
        published: seq<Request>)
    requires BuffersPart(free, used, held, [], n) && k <= |used|
    requires Holding(requests, used, 0, published, |published| - |used|)
    ensures BuffersPart(free, used[k..], held, used[..k], n)
    ensures Holding(requests, used[k..], 0, published, |published| - |used[k..]|)
    ensures Holding(requests, used[..k], 0, published, |published| - |used[k..]| - k)
  {
    HoldingCut(requests, used, k, published);
    hide Holding;
    PopHead(used, k);
  }

  lemma HoldingCut(requests: seq<Request>, used: seq<nat>, k: nat, published: seq<Request>)
    requires k <= |used| && Holding(requests, used, 0, published, |published| - |used|)
    ensures Holding(requests, used[k..], 0, published, |published| - |used[k..]|)
    ensures Holding(requests, used[..k], 0, published, |published| - |used[k..]| - k)
  {
  }

  lemma PublishedMore(internals: seq<Internal>, ticket: map<nat, nat>, live: set<nat>, calls: seq<Callback>,
        answered: seq<nat>, published: seq<Request>, r: Request)
    requires Copies(internals, ticket, live, published) && Answers(calls, answered, published)
    ensures Copies(internals, ticket, live, published + [r]) && Answers(calls, answered, published + [r])
  {
  }

  lemma HoldingMore(requests: seq<Request>, used: seq<nat>, b: nat, batch: seq<nat>, i: nat, published: seq<Request>)
    requires b < |requests| && Holding(requests, used, 0, published, |published| - |used|) && i <= |batch|
    requires Holding(requests, batch, i, published, |published| - |used| - (|batch| - i))
    ensures Holding(requests, used + [b], 0, published + [requests[b]], |published| - |used|)
    ensures Holding(requests, batch, i, published + [requests[b]], |published| - |used| - (|batch| - i))
  {
  }

  lemma HoldingFilled(requests: seq<Request>, queue: seq<nat>, i: nat, published: seq<Request>, first: int, b: nat,
        r: Request)
    requires Holding(requests, queue, i, published, first) && b < |requests| && b !in queue
    ensures Holding(requests[b := r], queue, i, published, first)
  {
  }

  lemma ObjectsMoved(out: set<nat>, submit: seq<nat>, resubmit: seq<nat>, inFlight: set<nat>)
    requires ObjectsPart(out, submit, resubmit, inFlight) && resubmit != []
    ensures ObjectsPart(out, [resubmit[0]] + submit, resubmit[1..], inFlight)
  {
    PopHead(resubmit, 1);
    assert resubmit[..1] == [resubmit[0]];
  }

  lemma CopyPlace(requests: seq<Request>, batch: seq<nat>, i: nat, published: seq<Request>, n: int)
    requires Holding(requests, batch, i, published, n) && i < |batch|
    ensures batch[i] < |requests| && 0 <= n < |published| && requests[batch[i]] == published[n]
    ensures Holding(requests, batch, i + 1, published, n + 1)
  {
  }

  lemma CopiesAccept(internals: seq<Internal>, ticket: map<nat, nat>, live: set<nat>, published: seq<Request>, o: nat,
        n: nat, r: Request)
    requires Copies(internals, ticket, live, published) && o !in live && o < |internals| && n < |published|
    requires r == published[n]
    ensures Copies(internals[o := Internal(r, false, internals[o].hasEntry)], ticket[o := n], live + {o}, published)
  {
  }

  lemma ObjectsAccept(live: set<nat>, submit: seq<nat>, resubmit: seq<nat>, inFlight: set<nat>, o: nat)
    requires ObjectsPart(live, submit, resubmit, inFlight) && o !in live
    ensures ObjectsPart(live + {o}, submit + [o], resubmit, inFlight)
  {
    assert multiset(live + {o}) == multiset(live) + multiset{o};
  }

  lemma Recycled(free: seq<nat>, used: seq<nat>, held: set<nat>, batch: seq<nat>, n: nat, requests: seq<Request>,
        published: seq<Request>, first: int)
    requires BuffersPart(free, used, held, batch, n) && Holding(requests, batch, |batch|, published, first)
    ensures BuffersPart(free + batch, used, held, [], n) && Holding(requests, [], 0, published, first)
  {
  }

  lemma ObjectsPopped(live: set<nat>, submit: seq<nat>, resubmit: seq<nat>, inFlight: set<nat>)
    requires ObjectsPart(live, submit, resubmit, inFlight) && submit != []
    ensures ObjectsPart(live, submit[1..], resubmit, inFlight + {submit[0]}) && submit[0] !in inFlight
    ensures submit[0] in live
  {
    PopHead(submit, 1);
    assert submit[..1] == [submit[0]];
    ObjectKnown(live, submit, resubmit, inFlight, submit[0]);
  }

  lemma CopiesLess(internals: seq<Internal>, ticket: map<nat, nat>, live: set<nat>, published: seq<Request>, o: nat)
    requires Copies(internals, ticket, live, published)
    ensures Copies(internals, ticket, live - {o}, published)
  {
  }

  lemma CopiesFlags(internals: seq<Internal>, ticket: map<nat, nat>, live: set<nat>, published: seq<Request>, o: nat,
        noLookup: bool, hasEntry: bool)
    requires Copies(internals, ticket, live, published) && o < |internals| && (noLookup ==> hasEntry)
    ensures Copies(internals[o := internals[o].(noLookup := noLookup, hasEntry := hasEntry)], ticket, live, published)
  {
  }

  lemma AnswersMore(calls: seq<Callback>, answered: seq<nat>, published: seq<Request>, t: nat, status: Status)
    requires Answers(calls, answered, published) && t < |published|
    ensures Answers(calls + [Callback(published[t].cb, published[t].ctx, status)], answered + [t], published)
  {
  }

  lemma ObjectsReleased(live: set<nat>, submit: seq<nat>, resubmit: seq<nat>, inFlight: set<nat>, o: nat)
    requires ObjectsPart(live, submit, resubmit, inFlight) && o in inFlight
    ensures ObjectsPart(live - {o}, submit, resubmit, inFlight - {o})
  {
    ObjectKnown(live, submit, resubmit, inFlight, o);
    assert multiset(live - {o}) == multiset(live) - multiset{o};
    assert multiset(inFlight - {o}) == multiset(inFlight) - multiset{o};
  }

  lemma ObjectsResubmitted(live: set<nat>, submit: seq<nat>, resubmit: seq<nat>, inFlight: set<nat>, o: nat)
    requires ObjectsPart(live, submit, resubmit, inFlight) && o in inFlight
    ensures ObjectsPart(live, submit, resubmit + [o], inFlight - {o})
  {
  }

  class Worker {
    const nbMaxReqs: nat
    const ringSize: nat
    const requests: array<Request>
    const internals: array<Internal>
    const pool: Pool
    var freeRing: seq<nat>
    var usedRing: seq<nat>
    var held: map<nat, Hold>
    var submit: seq<nat>
    var resubmit: seq<nat>
    var inFlight: map<nat, Stage>
    var phase: Phase
    var processSize: nat
    var batch: seq<nat>
    var copied: nat
    var calls: seq<Callback>
    /** The calls producers have made, in order, and of each published request the number of its call. */
    ghost var taken: seq<Order>
    ghost var sent: seq<nat>
    ghost var callOf: map<nat, nat>
    ghost var holder: map<nat, nat>
    ghost var published: seq<Request>
    ghost var handed: seq<Handed>
    ghost var ticket: map<nat, nat>
    ghost var carrier: map<nat, nat>
    ghost var answered: seq<nat>

    /** How many buffers took part: as many as the free ring could hold at the start. */
    function Circulating(): nat {
      if nbMaxReqs < ringSize then nbMaxReqs else ringSize
    }

    /** How many published requests have been copied into objects. */
    ghost function Accepted(): int
      reads this`published, this`usedRing, this`batch, this`copied
    {
      |published| - |usedRing| - (|batch| - copied)
    }

    ghost predicate Valid()
      reads this, requests, internals, pool, pool.next, pool.objects
    {
      && pool.Valid() && pool.count == nbMaxReqs && requests.Length == nbMaxReqs && internals.Length == nbMaxReqs
      && BuffersPart(freeRing, usedRing, held.Keys, batch, Circulating())
      && ObjectsPart(pool.Out(), submit, resubmit, inFlight.Keys)
      && copied <= |batch| && 0 <= Accepted()
      && Holding(requests[..], usedRing, 0, published, |published| - |usedRing|)
      && Holding(requests[..], batch, copied, published, Accepted())
      && Copies(internals[..], ticket, pool.Out(), published)
      && Carried(ticket, carrier, pool.Out(), answered, Accepted())
      && Answers(calls, answered, published)
      && Carried(callOf, holder, held.Keys, sent, |taken|)
      && HeldAs(requests[..], held, callOf, taken) && SentAs(published, sent, taken)
      && HandedAs(handed, published) && Seen(handed, answered, ticket, inFlight.Keys, resubmit)
      && Phased()
    }

    /** What the poller may rely on between its steps. */
    ghost predicate Phased()
      reads this`phase, this`processSize, this`usedRing, this`batch, this`copied, pool`nbFrees
    {
      && (phase == Counted ==> processSize <= |usedRing| && processSize <= pool.nbFrees)
      && (phase == Copying ==> |batch| - copied <= pool.nbFrees)
      && (phase != Copying ==> batch == [] && copied == 0)
    }

    ghost function Now(): State
      reads this, requests, internals, pool
    {
      State(freeRing, usedRing, held, requests[..], submit, resubmit, inFlight, internals[..], pool.frees, phase,
        processSize, batch, copied, calls, taken, sent, callOf, published, handed, ticket, answered)
    }

    lemma NowIs()
      ensures Now() == State(freeRing, usedRing, held, requests[..], submit, resubmit, inFlight, internals[..],
        pool.frees, phase, processSize, batch, copied, calls, taken, sent, callOf, published, handed, ticket, answered)
    {
    }

    constructor (nbMaxReqs: nat, ringSize: nat, objectSize: nat, data: nat)
      requires 1 <= nbMaxReqs < WRAP32 && 0 < objectSize && 0 < data && data + Times(nbMaxReqs, objectSize) < ADDRESSES
      ensures Valid() && this.nbMaxReqs == nbMaxReqs && this.ringSize == ringSize
      ensures freeRing == Upto(Circulating()) && usedRing == submit == resubmit == batch == [] && published == []
      ensures calls == [] && phase == Idle
      ensures taken == [] && handed == [] && held == map[]
      ensures fresh(requests) && fresh(internals) && fresh(pool) && fresh(pool.next) && fresh(pool.objects)
    {
      hide *;
      var blank := Request(GET, 0, 0, 0, 0, 0, 0);
      this.nbMaxReqs, this.ringSize := nbMaxReqs, ringSize;
      requests := new Request[nbMaxReqs](_ => blank);
      internals := new Internal[nbMaxReqs](_ => Internal(blank, false, false));
      pool := new Pool(nbMaxReqs, objectSize, data);
      freeRing, usedRing, held, submit, resubmit, inFlight := [], [], map[], [], [], map[];
      phase, processSize, batch, copied, calls := Idle, 0, [], 0, [];
      published, ticket, carrier, answered := [], map[], map[], [];
      taken, sent, callOf, holder, handed := [], [], map[], map[], [];
      new;
      var i := 0;
      while i < nbMaxReqs
        invariant i <= nbMaxReqs
        invariant freeRing == Upto(if i < ringSize then i else ringSize)
        invariant pool.Valid() && pool.Out() == {}
        modifies this`freeRing
      {
        if |freeRing| < ringSize {
          freeRing := freeRing + [i];
        }
        UptoMore(i);
        i := i + 1;
      }
      CirculatingIs();
      InitialParts(requests[..], internals[..], Circulating());
      InitialValid();
    }

    lemma CirculatingIs()
      ensures Circulating() == if nbMaxReqs < ringSize then nbMaxReqs else ringSize
    {
    }

    lemma InitialValid()
      requires pool.Valid() && pool.count == nbMaxReqs && requests.Length == nbMaxReqs && internals.Length == nbMaxReqs
      requires freeRing == Upto(Circulating()) && usedRing == submit == resubmit == batch == [] && held == map[]
      requires inFlight == map[]
      requires pool.Out() == {} && phase == Idle && copied == 0 && calls == [] && published == [] && answered == []
      requires ticket == carrier == map[]
      requires taken == [] && sent == [] && callOf == holder == map[] && handed == []
      ensures Valid()
    {
      InitialParts(requests[..], internals[..], Circulating());
      hide Carried, HeldAs, SentAs, HandedAs, Seen, Copies, Answers, Holding, BuffersPart, ObjectsPart;
    }

    // --- producers ---

    /** A producer that has an order takes a free buffer for it; it spins while there is none. */
    method TakeBuffer(order: Order) returns (b: nat)
      requires Valid() && freeRing != []
      modifies this`freeRing, this`held, this`taken, this`callOf, this`holder
      ensures Valid() && b == old(freeRing)[0] && freeRing == old(freeRing)[1..]
      ensures b !in old(held) && held == old(held)[b := Hold(order, false)] && taken == old(taken) + [order]
      ensures callOf == old(callOf)[b := |old(taken)|]
    {
      hide Carried, HeldAs, SentAs, HandedAs, Seen, Copies, Answers, Holding, BuffersPart, ObjectsPart;
      hide Pool.Valid, Pool.Out, Upto, Circulating, Accepted, Phased;
      b := freeRing[0];
      BufferTaken(order);
      StartHolding(b, order);
    }

    method StartHolding(b: nat, order: Order)
      requires freeRing != []
      modifies this`freeRing, this`held, this`taken, this`callOf, this`holder
      ensures freeRing == old(freeRing)[1..] && held == old(held)[b := Hold(order, false)]
      ensures callOf == old(callOf)[b := |old(taken)|] && holder == old(holder)[|old(taken)| := b]
      ensures taken == old(taken) + [order]
    {
      freeRing, held := freeRing[1..], held[b := Hold(order, false)];
      callOf, holder, taken := callOf[b := |taken|], holder[|taken| := b], taken + [order];
    }

    lemma BufferTaken(order: Order)
      requires Valid() && freeRing != []
      ensures
        var b, held' := freeRing[0], held[freeRing[0] := Hold(order, false)];
        && b !in held && BuffersPart(freeRing[1..], usedRing, held'.Keys, batch, Circulating())
        && Carried(callOf[b := |taken|], holder[|taken| := b], held'.Keys, sent, |taken + [order]|)
        && HeldAs(requests[..], held', callOf[b := |taken|], taken + [order])
        && SentAs(published, sent, taken + [order])
    {
      hide Carried, HeldAs, SentAs, HandedAs, Seen, Copies, Answers, Holding, BuffersPart, ObjectsPart;
      hide Pool.Valid, Pool.Out, Upto, Circulating, Accepted, Phased;
      var b, held' := freeRing[0], held[freeRing[0] := Hold(order, false)];
      TakenBuffer(freeRing, usedRing, held.Keys, batch, Circulating());
      CarriedAccept(callOf, holder, held.Keys, sent, |taken|, b);
      HeldTaken(requests[..], held, callOf, taken, b, order);
      SentTaken(published, sent, taken, order);
      assert held'.Keys == held.Keys + {b};
    }

    /** A producer fills in the buffer it holds; what a scan left there stays. */
    method FillBuffer(producer: nat, b: nat)
      requires Valid() && b in held && held[b].order.producer == producer
      modifies this`held, requests
      ensures Valid() && b < requests.Length && held == old(held)[b := Hold(old(held[b]).order, true)]
      ensures
        var order := old(held[b]).order;
        requests[..] == old(requests[..])[b := old(requests[b]).(
          op := order.op, shard := order.shard, item := order.item, cb := order.cb, ctx := order.ctx)]
    {
      hide Carried, HeldAs, SentAs, HandedAs, Seen, Copies, Answers, Holding, BuffersPart, ObjectsPart;
      hide Pool.Valid, Pool.Out, Upto, Accepted, Phased;
      BufferKnown(freeRing, usedRing, held.Keys, batch, Circulating(), b);
      var order := held[b].order;
      var r := requests[b].(op := order.op, shard := order.shard, item := order.item, cb := order.cb, ctx := order.ctx);
      HeldFilled(requests[..], held, callOf, taken, b, r);
      ghost var was := requests[..];
      HoldingFilled(was, usedRing, 0, published, |published| - |usedRing|, b, r);
      HoldingFilled(was, batch, copied, published, Accepted(), b, r);
      requests[b] := r;
      assert requests[..] == was[b := r];
      held := held[b := Hold(order, true)];
      assert held.Keys == old(held.Keys);
    }

    /** A producer hands its buffer to the worker: the used ring always has room, and the request is what it ordered. */
    method SubmitBuffer(producer: nat, b: nat)
      requires Valid() && b in held && held[b].order.producer == producer && held[b].filled
      modifies this`usedRing, this`held, this`published, this`sent
      ensures Valid() && |old(usedRing)| < ringSize && usedRing == old(usedRing) + [b] && held == old(held) - {b}
      ensures b < requests.Length && published == old(published) + [requests[b]]
      ensures Carries(requests[b], old(held[b]).order)
      ensures b in callOf && sent == old(sent) + [callOf[b]] && callOf[b] !in old(sent)
    {
      hide Carried, HeldAs, SentAs, HandedAs, Seen, Copies, Answers, Holding, BuffersPart, ObjectsPart;
      hide Pool.Valid, Pool.Out, Upto, Carries;
      HeldIs(b);
      BufferKnown(freeRing, usedRing, held.Keys, batch, Circulating(), b);
      BufferCounts(freeRing, usedRing, held.Keys, batch, Circulating());
      GivenBuffer(freeRing, usedRing, held.Keys, batch, Circulating(), b);
      CarriedAnswer(callOf, holder, held.Keys, sent, |taken|, b);
      HeldGiven(requests[..], held, callOf, taken, b);
      SentMore(published, sent, taken, requests[b], callOf[b]);
      HandedPublished(handed, published, requests[b]);
      PublishedMore(internals[..], ticket, pool.Out(), calls, answered, published, requests[b]);
      HoldingMore(requests[..], usedRing, b, batch, copied, published);
      StopHolding(b, callOf[b]);
      assert held.Keys == old(held.Keys) - {b};
    }

    method StopHolding(b: nat, ghost call: nat)
      requires b < requests.Length
      modifies this`usedRing, this`held, this`published, this`sent
      ensures usedRing == old(usedRing) + [b] && held == old(held) - {b}
      ensures published == old(published) + [requests[b]] && sent == old(sent) + [call]
    {
      usedRing, held := usedRing + [b], held - {b};
      published, sent := published + [requests[b]], sent + [call];
    }

    lemma HeldIs(b: nat)
      requires Valid() && b in held
      ensures b in callOf && callOf[b] < |taken| && taken[callOf[b]] == held[b].order && callOf[b] !in sent
      ensures held[b].filled ==> b < requests.Length && Carries(requests[b], held[b].order)
    {
    }

    /** The call a producer makes, when nothing comes in between. */
    method Enqueue(order: Order)
      requires Valid() && freeRing != []
      modifies this`freeRing, this`usedRing, this`held, this`published, this`taken, this`sent, this`callOf, this`holder
      modifies requests
      ensures Valid() && |published| == |old(published)| + 1 && published[..|old(published)|] == old(published)
      ensures
        var r := published[|old(published)|];
        && r.op == order.op && r.shard == order.shard && r.item == order.item && r.cb == order.cb
        && r.ctx == order.ctx
      ensures held == old(held)
      ensures taken == old(taken) + [order] && sent == old(sent) + [|old(taken)|]
    {
      hide Valid, Carries;
      var b := TakeBuffer(order);
      FillBuffer(order.producer, b);
      SubmitBuffer(order.producer, b);
      CarriesMeans(requests[b], order);
      assert held == old(held);
    }

    // --- the worker's poller, step by step ---

    /** Fixes how many requests this poll will take: no more than are waiting, than there are objects for, than may do
        I/O. */
    method PollCount(maxIo: nat, pendingIo: nat)
      requires Valid() && phase == Idle
      modifies this`phase, this`processSize
      ensures Valid() && phase == Counted
      ensures
        var io := if maxIo < pendingIo then 0 else maxIo - pendingIo;
        && processSize <= |usedRing| && processSize <= |pool.frees| && processSize <= io
        && (processSize == |usedRing| || processSize == |pool.frees| || processSize == io)
    {
      hide Carried, HeldAs, SentAs, HandedAs, Seen, Copies, Answers, Holding, BuffersPart, ObjectsPart;
      hide Pool.Out, Upto, Circulating, Accepted, Threaded;
      var pReqs, aReqs := |usedRing|, pool.nbFrees;
      var aIos := if maxIo < pendingIo then 0 else maxIo - pendingIo;
      processSize := if pReqs < aReqs then pReqs else aReqs;
      processSize := if processSize < aIos then processSize else aIos;
      phase := Counted;
    }

    /** Moves every request to be resubmitted to the front of the submit queue, one by one. */
    method PollRequeue()
      requires Valid() && phase == Counted
      modifies this`submit, this`resubmit
      ensures Valid() && resubmit == [] && |submit| == |old(resubmit)| + |old(submit)|
      ensures forall j :: 0 <= j < |old(resubmit)| ==> submit[j] == old(resubmit)[|old(resubmit)| - 1 - j]
      ensures submit[|old(resubmit)|..] == old(submit)
    {
      hide Carried, HeldAs, SentAs, HandedAs, Seen, Copies, Answers, Holding, BuffersPart, ObjectsPart;
      hide Pool.Valid, Pool.Out, Upto, Circulating, Accepted, Phased, Requeued;
      ghost var was, all := submit, resubmit;
      RequeuedNone(all, was);
      while resubmit != []
        invariant Requeued(all, was, resubmit, submit)
        invariant ObjectsPart(pool.Out(), submit, resubmit, inFlight.Keys)
        invariant Seen(handed, answered, ticket, inFlight.Keys, resubmit)
        decreases |resubmit|
      {
        SeenLess(handed, answered, ticket, inFlight.Keys, resubmit);
        RequeuedOne(all, was, resubmit, submit);
        ObjectsMoved(pool.Out(), submit, resubmit, inFlight.Keys);
        submit, resubmit := [resubmit[0]] + submit, resubmit[1..];
      }
      RequeuedAll(all, was, submit);
    }

    method PollDequeue()
      requires Valid() && phase == Counted
      modifies this`phase, this`usedRing, this`batch, this`copied
      ensures Valid() && phase == Copying && copied == 0
      ensures processSize <= |old(usedRing)|
      ensures batch == old(usedRing)[..processSize] && usedRing == old(usedRing)[processSize..]
      ensures |batch| == processSize
    {
      hide Carried, HeldAs, SentAs, HandedAs, Seen, Copies, Answers, Holding, BuffersPart, ObjectsPart;
      hide Pool.Valid, Pool.Out, Upto, Circulating;
      Dequeued(freeRing, usedRing, held.Keys, Circulating(), processSize, requests[..], published);
      batch, usedRing, copied, phase := usedRing[..processSize], usedRing[processSize..], 0, Copying;
    }

    /** Takes an object for the next request of the batch, copies the request into it and queues it. */
    method PollCopy()
      requires Valid() && phase == Copying && copied < |batch|
      modifies this`submit, this`copied, this`ticket, this`carrier, internals, pool`nbFrees, pool`frees, pool.next
      ensures Valid() && copied == old(copied) + 1 && phase == Copying
      ensures old(pool.frees) != [] && pool.frees == old(pool.frees)[1..]
      ensures submit == old(submit) + [old(pool.frees)[0]]
      ensures batch[old(copied)] < requests.Length && old(pool.frees)[0] < internals.Length
      ensures
        var o := old(pool.frees)[0];
        internals[..] == old(internals[..])[o :=
          Internal(requests[batch[old(copied)]], false, old(internals[..])[o].hasEntry)]
      ensures
        var n := |published| - |usedRing| - (|batch| - old(copied));
        && 0 <= n < |published| && ticket == old(ticket)[old(pool.frees)[0] := n]
        && requests[batch[old(copied)]] == published[n]
    {
      hide Carried, HeldAs, SentAs, HandedAs, Seen, Copies, Answers, Holding, BuffersPart, ObjectsPart;
      hide Pool.Valid, Pool.Out, Upto, Circulating;
      PoolFacts();
      ghost var live, n := pool.Out(), Accepted();
      CopyPlace(requests[..], batch, copied, published, n);
      var i := TakeObject();
      ObjectKnown(live, submit, resubmit, inFlight.Keys, i);
      SeenAccepted(handed, answered, ticket, inFlight.Keys, resubmit, i, n);
      CarriedAccept(ticket, carrier, live, answered, n, i);
      CopiesAccept(internals[..], ticket, live, published, i, n, requests[batch[copied]]);
      ObjectsAccept(live, submit, resubmit, inFlight.Keys, i);
      ghost var was := internals[..];
      internals[i] := Internal(requests[batch[copied]], false, internals[i].hasEntry);
      assert internals[..] == was[i := Internal(requests[batch[copied]], false, was[i].hasEntry)];
      StartCarrying(i, n);
    }

    /** The pool has an object: the number of the one it hands out. */
    method TakeObject() returns (i: nat)
      requires pool.Valid() && pool.frees != []
      modifies pool`nbFrees, pool`frees, pool.next
      ensures pool.Valid() && i == old(pool.frees)[0] && i < pool.count && pool.frees == old(pool.frees)[1..]
      ensures i !in old(pool.Out()) && pool.Out() == old(pool.Out()) + {i} && pool.nbFrees == |pool.frees|
    {
      hide *;
      PoolFacts();
      ghost var x := pool.frees[0];
      var o := pool.Get();
      pool.AddressIs(x);
      DivideBack(x, pool.objectSize);
      i := (o - pool.cacheData) / pool.objectSize;
      PoolFacts();
    }

    method StartCarrying(o: nat, ghost n: nat)
      modifies this`submit, this`copied, this`ticket, this`carrier
      ensures submit == old(submit) + [o] && copied == old(copied) + 1
      ensures ticket == old(ticket)[o := n] && carrier == old(carrier)[n := o]
    {
      submit, copied := submit + [o], copied + 1;
      ticket, carrier := ticket[o := n], carrier[n := o];
    }

    lemma PoolFacts()
      requires pool.Valid()
      ensures pool.nbFrees == |pool.frees| && 0 < pool.objectSize
      ensures forall i :: 0 <= i < |pool.frees| ==> pool.frees[i] < pool.count
    {
    }

    /** Gives the copied buffers back: the free ring always has room. */
    method PollRecycle()
      requires Valid() && phase == Copying && copied == |batch|
      modifies this`phase, this`freeRing, this`batch, this`copied
      ensures Valid() && phase == Draining && batch == [] && copied == 0 && freeRing == old(freeRing) + old(batch)
      ensures |freeRing| <= ringSize
    {
      hide Carried, HeldAs, SentAs, HandedAs, Seen, Copies, Answers, Holding, BuffersPart, ObjectsPart;
      hide Pool.Valid, Pool.Out, Upto;
      BufferCounts(freeRing, usedRing, held.Keys, batch, Circulating());
      Recycled(freeRing, usedRing, held.Keys, batch, Circulating(), requests[..], published, Accepted());
      freeRing, batch, copied, phase := freeRing + batch, [], 0, Draining;
    }

    /** Hands the first queued request to its handler, with the fields that its producer gave it. */
    method PollNext() returns (o: nat)
      requires Valid() && submit != []
      modifies this`submit, this`inFlight, this`handed
      ensures Valid() && o == old(submit)[0] && submit == old(submit)[1..]
      ensures o !in old(inFlight) && inFlight == old(inFlight)[o := Working]
      ensures o in pool.Out() && o < internals.Length && o in ticket && ticket[o] !in answered
      ensures handed == old(handed) + [Handed(ticket[o], internals[o].request)]
      ensures ticket[o] < |published| == |sent| && sent[ticket[o]] < |taken|
      ensures internals[o].request == published[ticket[o]]
      ensures
        var r, order := internals[o].request, taken[sent[ticket[o]]];
        && r.op == order.op && r.shard == order.shard && r.item == order.item && r.cb == order.cb
        && r.ctx == order.ctx
    {
      hide Carried, HeldAs, SentAs, HandedAs, Seen, Copies, Answers, Holding, BuffersPart, ObjectsPart;
      hide Pool.Valid, Pool.Out, Upto, Circulating, Accepted, Phased, Carries;
      o := submit[0];
      LiveObject(o);
      LiveOrder(o);
      CarriesMeans(internals[o].request, taken[sent[ticket[o]]]);
      ObjectsPopped(pool.Out(), submit, resubmit, inFlight.Keys);
      HandedOver(handed, published, ticket[o]);
      SeenHanded(handed, answered, ticket, inFlight.Keys, resubmit, o, internals[o].request);
      StartHandling(o, ticket[o]);
      assert inFlight.Keys == old(inFlight.Keys) + {o};
    }

    method StartHandling(o: nat, ghost number: nat)
      requires submit != [] && o < internals.Length
      modifies this`submit, this`inFlight, this`handed
      ensures submit == old(submit)[1..] && inFlight == old(inFlight)[o := Working]
      ensures handed == old(handed) + [Handed(number, internals[o].request)]
    {
      handed := handed + [Handed(number, internals[o].request)];
      submit, inFlight := submit[1..], inFlight[o := Working];
    }

    lemma LiveObject(o: nat)
      requires Valid() && (o in submit || o in inFlight)
      ensures o in pool.Out() && o < internals.Length && o in ticket && ticket[o] < |published|
      ensures internals[o].request == published[ticket[o]]
      ensures ticket[o] !in answered && (internals[o].noLookup ==> internals[o].hasEntry)
    {
      ObjectKnown(pool.Out(), submit, resubmit, inFlight.Keys, o);
    }

    lemma LiveOrder(o: nat)
      requires Valid() && (o in submit || o in inFlight)
      ensures o in ticket && ticket[o] < |published| == |sent| && sent[ticket[o]] < |taken|
      ensures o < internals.Length && Carries(internals[o].request, taken[sent[ticket[o]]])
    {
      LiveObject(o);
    }

    // --- the ways out of a handler ---

    /** Releases the object and calls the request's callback, which has not been called before. */
    method Finish(o: nat, status: Status)
      requires Valid() && o in inFlight
      modifies this`inFlight, this`calls, this`answered, pool`nbFrees, pool`frees, pool.next
      ensures Valid() && inFlight == old(inFlight) - {o} && pool.frees == [o] + old(pool.frees)
      ensures o < internals.Length && o in ticket && ticket[o] < |published| && ticket[o] !in old(answered)
      ensures internals[o].request == published[ticket[o]] && answered == old(answered) + [ticket[o]]
      ensures calls == old(calls) + [Callback(internals[o].request.cb, internals[o].request.ctx, status)]
    {
      hide Carried, HeldAs, SentAs, HandedAs, Seen, Copies, Answers, Holding, BuffersPart, ObjectsPart;
      hide Pool.Valid, Pool.Out, Upto, Circulating, Accepted;
      LiveObject(o);
      PoolFacts();
      ghost var live := pool.Out();
      CarriedAnswer(ticket, carrier, live, answered, Accepted(), o);
      CopiesLess(internals[..], ticket, live, published, o);
      AnswersMore(calls, answered, published, ticket[o], status);
      ObjectsReleased(live, submit, resubmit, inFlight.Keys, o);
      SeenAnswered(handed, answered, ticket, inFlight.Keys, resubmit, o);
      pool.Release(pool.Address(o), o);
      StopHandling(o, ticket[o], status);
      assert inFlight.Keys == old(inFlight.Keys) - {o};
      PoolFacts();
    }

    method StopHandling(o: nat, ghost number: nat, status: Status)
      requires o < internals.Length
      modifies this`inFlight, this`calls, this`answered
      ensures inFlight == old(inFlight) - {o} && answered == old(answered) + [number]
      ensures calls == old(calls) + [Callback(internals[o].request.cb, internals[o].request.ctx, status)]
    {
      inFlight, answered := inFlight - {o}, answered + [number];
      calls := calls + [Callback(internals[o].request.cb, internals[o].request.ctx, status)];
    }

    /** Puts the request aside until the next poll. */
    method Resubmit(o: nat, noLookup: bool, hasEntry: bool)
      requires Valid() && o in inFlight && (noLookup ==> hasEntry)
      modifies this`inFlight, this`resubmit, internals
      ensures Valid() && inFlight == old(inFlight) - {o} && resubmit == old(resubmit) + [o] && o < internals.Length
      ensures internals[..] == old(internals[..])[o := old(internals[o]).(noLookup := noLookup, hasEntry := hasEntry)]
    {
      hide Carried, HeldAs, SentAs, HandedAs, Seen, Copies, Answers, Holding, BuffersPart, ObjectsPart;
      hide Pool.Valid, Pool.Out, Upto, Circulating, Accepted, Phased;
      LiveObject(o);
      SetFlags(o, noLookup, hasEntry);
      ObjectsResubmitted(pool.Out(), submit, resubmit, inFlight.Keys, o);
      SeenAside(handed, answered, ticket, inFlight.Keys, resubmit, o);
      inFlight, resubmit := inFlight - {o}, resubmit + [o];
      assert inFlight.Keys == old(inFlight.Keys) - {o};
    }

    /** What a lookup leaves in the request. */
    method SetFlags(o: nat, noLookup: bool, hasEntry: bool)
      requires Valid() && o in inFlight && o < internals.Length && (noLookup ==> hasEntry)
      modifies internals
      ensures Valid()
      ensures internals[..] == old(internals[..])[o := old(internals[o]).(noLookup := noLookup, hasEntry := hasEntry)]
    {
      hide Carried, HeldAs, SentAs, HandedAs, Seen, Copies, Answers, Holding, BuffersPart, ObjectsPart;
      hide Pool.Valid, Pool.Out, Upto, Circulating, Accepted, Phased;
      CopiesFlags(internals[..], ticket, pool.Out(), published, o, noLookup, hasEntry);
      internals[o] := internals[o].(noLookup := noLookup, hasEntry := hasEntry);
    }

    method Wait(o: nat, stage: Stage)
      requires Valid() && o in inFlight
      modifies this`inFlight
      ensures Valid() && inFlight == old(inFlight)[o := stage]
    {
      hide Carried, HeldAs, SentAs, HandedAs, Seen, Copies, Answers, Holding, BuffersPart, ObjectsPart;
      hide Pool.Valid, Pool.Out, Upto, Circulating, Accepted, Phased;
      inFlight := inFlight[o := stage];
      assert inFlight.Keys == old(inFlight.Keys);
    }

    // --- handlers ---

    /** A GET is answered if there is no entry, is put aside behind a modification of its entry, is answered from the
        cache, or waits for its page chunk or its data. */
    method ProcessGet(o: nat, look: Look) returns (ghost verdict: Verdict)
      requires Valid() && o in inFlight && o < internals.Length
      modifies this`inFlight, this`resubmit, this`calls, this`answered, internals, pool`nbFrees, pool`frees, pool.next
      ensures Valid() && o in ticket
      ensures
        var i := old(internals[o]);
        var found := if i.noLookup then i.hasEntry else look.found;
        && internals[..] == old(internals[..])[o :=
             i.(noLookup := i.noLookup || (found && look.writing), hasEntry := found)]
        && verdict ==
             if !found then Answer(NotExist)
             else if look.writing || look.deleting then Aside
             else if !look.resident then Await(Requesting)
             else if look.cached then Answer(Success)
             else Await(Loading)
      ensures
        var r := old(internals[o]).request;
        match verdict
        case Answer(status) =>
          && calls == old(calls) + [Callback(r.cb, r.ctx, status)] && answered == old(answered) + [ticket[o]]
          && pool.frees == [o] + old(pool.frees) && inFlight == old(inFlight) - {o} && resubmit == old(resubmit)
        case Aside =>
          && calls == old(calls) && answered == old(answered) && pool.frees == old(pool.frees)
          && inFlight == old(inFlight) - {o} && resubmit == old(resubmit) + [o]
        case Await(stage) =>
          && calls == old(calls) && answered == old(answered) && pool.frees == old(pool.frees)
          && inFlight == old(inFlight)[o := stage] && resubmit == old(resubmit)
    {
      hide *;
      LiveFlags(o);
      if !internals[o].noLookup {
        SetFlags(o, false, look.found);
      }
      LiveFlags(o);
      if !internals[o].hasEntry {
        Finish(o, NotExist);
        verdict := Answer(NotExist);
      } else if look.writing || look.deleting {
        Resubmit(o, internals[o].noLookup || look.writing, true);
        verdict := Aside;
      } else if !look.resident {
        Wait(o, Requesting);
        verdict := Await(Requesting);
      } else if look.cached {
        LoadDone(o, false);
        verdict := Answer(Success);
      } else {
        Wait(o, Loading);
        verdict := Await(Loading);
      }
    }

    lemma LiveFlags(o: nat)
      requires Valid() && o in inFlight
      ensures o < internals.Length && (internals[o].noLookup ==> internals[o].hasEntry) && o in ticket
    {
      LiveObject(o);
    }

    /** The memory for a page chunk has arrived: now its data is loaded. */
    method ChunkReady(o: nat)
      requires Valid() && o in inFlight && inFlight[o] == Requesting
      modifies this`inFlight
      ensures Valid() && inFlight == old(inFlight)[o := Loading]
    {
      Wait(o, Loading);
    }

    /** The data has been loaded, or could not be: the request's own callback is called, for the first time. */
    method LoadDone(o: nat, failed: bool)
      requires Valid() && o in inFlight
      modifies this`inFlight, this`calls, this`answered, pool`nbFrees, pool`frees, pool.next
      ensures Valid() && inFlight == old(inFlight) - {o} && pool.frees == [o] + old(pool.frees)
      ensures o < internals.Length && o in ticket && ticket[o] < |published| && ticket[o] !in old(answered)
      ensures internals[o].request == published[ticket[o]] && answered == old(answered) + [ticket[o]]
      ensures calls == old(calls) + [Callback(internals[o].request.cb, internals[o].request.ctx,
        if failed then IoError else Success)]
    {
      hide *;
      Finish(o, if failed then IoError else Success);
    }

    /** A request of another kind: its handler finishes it, puts it aside or keeps it; a request of no known kind is
        refused. */
    method ProcessOther(o: nat, outcome: Outcome) returns (ghost verdict: Verdict)
      requires Valid() && o in inFlight && o < internals.Length
      modifies this`inFlight, this`resubmit, this`calls, this`answered, internals, pool`nbFrees, pool`frees, pool.next
      ensures Valid() && o in ticket && internals[..] == old(internals[..])
      ensures
        verdict ==
          if old(internals[o]).request.op.UNKNOWN? then Answer(OpUnknown)
          else match outcome
            case Finishes(code) => Answer(HandlerStatus(code))
            case Requeues => Aside
            case Keeps => Await(Loading)
      ensures
        var r := old(internals[o]).request;
        match verdict
        case Answer(status) =>
          && calls == old(calls) + [Callback(r.cb, r.ctx, status)] && answered == old(answered) + [ticket[o]]
          && pool.frees == [o] + old(pool.frees) && inFlight == old(inFlight) - {o} && resubmit == old(resubmit)
        case Aside =>
          && calls == old(calls) && answered == old(answered) && pool.frees == old(pool.frees)
          && inFlight == old(inFlight) - {o} && resubmit == old(resubmit) + [o]
        case Await(stage) =>
          && calls == old(calls) && answered == old(answered) && pool.frees == old(pool.frees)
          && inFlight == old(inFlight)[o := stage] && resubmit == old(resubmit)
    {
      hide *;
      LiveFlags(o);
      if internals[o].request.op.UNKNOWN? {
        Finish(o, OpUnknown);
        verdict := Answer(OpUnknown);
      } else {
        match outcome {
          case Finishes(code) =>
            Finish(o, HandlerStatus(code));
            verdict := Answer(HandlerStatus(code));
          case Requeues =>
            Resubmit(o, internals[o].noLookup, internals[o].hasEntry);
            verdict := Aside;
          case Keeps =>
            Wait(o, Loading);
            verdict := Await(Loading);
        }
      }
    }

    /** Takes the first queued request through the handler of its kind. */
    method ProcessOne(look: Look, outcome: Outcome) returns (ghost verdict: Verdict)
      requires Valid() && submit != []
      modifies this`submit, this`inFlight, this`resubmit, this`calls, this`answered, this`handed, internals
      modifies pool`nbFrees, pool`frees, pool.next
      ensures Valid() && submit == old(submit)[1..]
      ensures
        var o := old(submit)[0];
        && o < internals.Length && o in ticket && o !in old(inFlight)
        && handed == old(handed) + [Handed(ticket[o], old(internals[..])[o].request)]
      ensures
        var i := old(internals[..])[old(submit)[0]];
        var found := if i.noLookup then i.hasEntry else look.found;
        && internals[..] == old(internals[..])[old(submit)[0] := if i.request.op == GET then
             Internal(i.request, i.noLookup || (found && look.writing), found) else i]
        && verdict ==
             if i.request.op == GET then
               if !found then Answer(NotExist)
               else if look.writing || look.deleting then Aside
               else if !look.resident then Await(Requesting)
               else if look.cached then Answer(Success)
               else Await(Loading)
             else if i.request.op.UNKNOWN? then Answer(OpUnknown)
             else match outcome
               case Finishes(code) => Answer(HandlerStatus(code))
               case Requeues => Aside
               case Keeps => Await(Loading)
      ensures
        var o := old(submit)[0];
        var r := old(internals[..])[o].request;
        match verdict
        case Answer(status) =>
          && calls == old(calls) + [Callback(r.cb, r.ctx, status)] && answered == old(answered) + [ticket[o]]
          && pool.frees == [o] + old(pool.frees) && inFlight == old(inFlight) && resubmit == old(resubmit)
        case Aside =>
          && calls == old(calls) && answered == old(answered) && pool.frees == old(pool.frees)
          && inFlight == old(inFlight) && resubmit == old(resubmit) + [o]
        case Await(stage) =>
          && calls == old(calls) && answered == old(answered) && pool.frees == old(pool.frees)
          && inFlight == old(inFlight)[o := stage] && resubmit == old(resubmit)
    {
      hide *;
      var o := PollNext();
      if internals[o].request.op == GET {
        verdict := ProcessGet(o, look);
      } else {
        verdict := ProcessOther(o, outcome);
      }
      assert old(inFlight)[o := Working] - {o} == old(inFlight);
    }

    /** A hand-over, as a step. */
    method HandOver(look: Look, outcome: Outcome) returns (ghost verdict: Verdict)
      requires Valid() && submit != []
      modifies this`submit, this`inFlight, this`resubmit, this`calls, this`answered, this`handed, internals
      modifies pool`nbFrees, pool`frees, pool.next
      ensures Valid() && submit == old(submit)[1..] && old(submit)[0] < internals.Length
      ensures Handles(old(Now()), look, verdict, Now())
      ensures verdict == Due(old(internals[..])[old(submit)[0]], look, outcome)
    {
      hide *;
      ghost var s := Now();
      NowIs();
      verdict := ProcessOne(look, outcome);
      NowIs();
      IsHandled(s, look, outcome, verdict, Now());
    }

    /** The first half of a poll: what was put aside, last first, then what was queued, then the new requests in
        order. */
    method PollAccept(maxIo: nat, pendingIo: nat) returns (ghost n: nat)
      requires Valid() && phase == Idle
      modifies this`phase, this`processSize, this`submit, this`resubmit, this`freeRing, this`usedRing, this`batch
      modifies this`copied, this`ticket, this`carrier, internals, pool`nbFrees, pool`frees, pool.next
      ensures Valid() && phase == Draining
      ensures LeastOf(n, |old(usedRing)|, |old(pool.frees)|, maxIo, pendingIo)
      ensures TakenIn(old(Now()), n, Now())
    {
      hide *;
      ghost var s := Now();
      n := PollBegin(maxIo, pendingIo);
      ghost var s1 := Now();
      FreesDistinct();
      BegunBatch(s, n, s1);
      while copied < |batch|
        invariant Valid() && phase == Copying && copied <= |batch| == n && batch == s1.batch
        invariant Accepting(s1, copied, Now())
        decreases |batch| - copied
      {
        CopyOne(s1);
      }
      ghost var t := Now();
      PollFinish();
      AllTakenIn(s, n, s1, t, Now());
    }

    /** What comes after the copying. */
    method PollFinish()
      requires Valid() && phase == Copying && copied == |batch|
      modifies this`phase, this`freeRing, this`batch, this`copied
      ensures Valid() && phase == Draining
      ensures Now() == old(Now()).(phase := Draining, freeRing := old(Now()).freeRing + old(Now()).batch, batch := [],
        copied := 0)
    {
      hide *;
      NowIs();
      PollRecycle();
      NowIs();
    }

    /** What comes before the copying. */
    method PollBegin(maxIo: nat, pendingIo: nat) returns (ghost n: nat)
      requires Valid() && phase == Idle
      modifies this`phase, this`processSize, this`submit, this`resubmit, this`usedRing, this`batch, this`copied
      ensures Valid() && phase == Copying && copied == 0 && |batch| == n && batch == Now().batch
      ensures LeastOf(n, |old(usedRing)|, |old(pool.frees)|, maxIo, pendingIo)
      ensures Begun(old(Now()), n, Now())
    {
      hide *;
      ghost var s := Now();
      NowIs();
      PollPrepare(maxIo, pendingIo);
      n := |batch|;
      NowIs();
      HasBegun(s, n, Now());
    }

    method PollPrepare(maxIo: nat, pendingIo: nat)
      requires Valid() && phase == Idle
      modifies this`phase, this`processSize, this`submit, this`resubmit, this`usedRing, this`batch, this`copied
      ensures Valid() && phase == Copying && copied == 0 && processSize == |batch| <= |old(usedRing)| <= |published|
      ensures old(batch) == [] && old(copied) == 0
      ensures LeastOf(|batch|, |old(usedRing)|, |old(pool.frees)|, maxIo, pendingIo)
      ensures batch == old(usedRing)[..|batch|] && usedRing == old(usedRing)[|batch|..] && resubmit == []
      ensures Requeued(old(resubmit), old(submit), [], submit)
    {
      hide *;
      IdleBatch();
      PollCount(maxIo, pendingIo);
      IsLeast(processSize, |usedRing|, |pool.frees|, maxIo, pendingIo);
      PollRequeue();
      HasRequeued(old(resubmit), old(submit), submit);
      PollDequeue();
    }

    /** One turn of the copying. */
    method CopyOne(ghost s: State)
      requires Valid() && phase == Copying && copied < |batch| && batch == s.batch && Accepting(s, copied, Now())
      requires Distinct(s.frees)
      modifies this`submit, this`copied, this`ticket, this`carrier, internals, pool`nbFrees, pool`frees, pool.next
      ensures Valid() && phase == Copying && copied == old(copied) + 1 && Accepting(s, copied, Now())
    {
      hide *;
      ghost var c, t := copied, Now();
      NowIs();
      AcceptingSame(s, c, t);
      PollCopy();
      NowIs();
      AcceptingMore(s, c, t, |published| - |usedRing| - (|batch| - c), Now());
    }

    lemma FreesDistinct()
      requires Valid()
      ensures Distinct(Now().frees)
    {
    }

    lemma IdleBatch()
      requires Valid() && phase == Idle
      ensures batch == [] && copied == 0 && |usedRing| <= |published|
    {
    }

    lemma SubmitDistinct()
      requires Valid()
      ensures Distinct(submit) && Distinct(Now().submit)
    {
      NowIs();
      forall x: nat
        ensures multiset(submit)[x] <= 1
      {
        var all := multiset(submit) + multiset(resubmit) + multiset(inFlight.Keys);
        assert all[x] == multiset(pool.Out())[x] by { hide Pool.Valid, Pool.Out; }
        assert multiset(submit)[x] <= all[x];
        assert multiset(pool.Out())[x] <= 1;
      }
      OnceDistinct(submit);
    }

    /** The second half of a poll: everything queued goes to its handler, in order. */
    method PollDrain(look: nat -> Look, outcome: nat -> Outcome)
      returns (events: nat, ghost trace: seq<State>, ghost verdicts: seq<Verdict>)
      requires Valid() && phase == Draining
      modifies this`submit, this`inFlight, this`resubmit, this`calls, this`answered, this`handed, internals
      modifies pool`nbFrees, pool`frees, pool.next
      ensures Valid() && submit == [] && events == |old(submit)| == |verdicts| && |trace| == events + 1
      ensures trace[0] == old(Now()) && trace[events] == Now() && Drains(trace, look, outcome, verdicts)
    {
      hide *;
      events, trace, verdicts := 0, [Now()], [];
      DrainsNone(Now(), look, outcome);
      while submit != []
        invariant Valid() && events + |submit| == |old(submit)| && |verdicts| == events && |trace| == events + 1
        invariant trace[0] == old(Now()) && trace[events] == Now() && Drains(trace, look, outcome, verdicts)
        decreases |submit|
      {
        ghost var s := Now();
        NowIs();
        ghost var verdict := HandOver(look(events), outcome(events));
        IsHandsOver(s, look(events), outcome(events), verdict, Now());
        DrainsMore(trace, look, outcome, verdicts, verdict, Now());
        trace, verdicts, events := trace + [Now()], verdicts + [verdict], events + 1;
      }
    }

    /** One poll, when nothing comes in between: looks and outcomes say what the handlers find. It takes in as many
        waiting requests as there are objects and I/O slots for; it hands over what was put aside, the last first, then
        what was queued, then the new requests, in order; trace holds the states before and after each hand-over, and
        verdicts what becomes of each. */
    method Poll(maxIo: nat, pendingIo: nat, look: nat -> Look, outcome: nat -> Outcome)
      returns (events: nat, ghost trace: seq<State>, ghost verdicts: seq<Verdict>)
      requires Valid() && phase == Idle
      modifies this`phase, this`processSize, this`submit, this`resubmit, this`freeRing, this`usedRing, this`batch
      modifies this`copied, this`ticket, this`carrier, this`inFlight, this`calls, this`answered, this`handed
      modifies internals, pool`nbFrees, pool`frees, pool.next
      ensures Valid() && phase == Idle && submit == [] && |trace| == events + 1 && |verdicts| == events
      ensures
        var s, n := old(Now()), events - |old(resubmit)| - |old(submit)|;
        var io := if maxIo < pendingIo then 0 else maxIo - pendingIo;
        && 0 <= n <= |s.usedRing| <= |published| && n <= |s.frees| && n <= io
        && (n == |s.usedRing| || n == |s.frees| || n == io)
        && usedRing == s.usedRing[n..] && freeRing == s.freeRing + s.usedRing[..n]
      ensures
        var s, q, p, queue := old(Now()), |old(resubmit)|, |old(submit)|, trace[0].submit;
        && |queue| == events && (forall j :: 0 <= j < q ==> queue[j] == s.resubmit[q - 1 - j])
        && queue[q..q + p] == s.submit && queue[q + p..] == s.frees[..events - q - p]
      ensures
        var s, a := old(Now()), trace[0];
        && a.calls == s.calls && a.answered == s.answered && a.inFlight == s.inFlight && a.resubmit == []
        && a.handed == s.handed && a.frees == s.frees[events - |s.resubmit| - |s.submit|..]
      ensures trace[events].(phase := Idle) == Now()
      ensures |handed| == |old(handed)| + events && old(handed) <= handed
      ensures |trace[0].internals| == |old(Now()).internals| && forall i :: 0 <= i < events ==>
        trace[0].submit[i] < |trace[0].internals| && trace[0].submit[i] in trace[0].ticket
      ensures forall i :: 0 <= i < events ==>
        var s, a := old(Now()), trace[0];
        var o, k := a.submit[i], |s.resubmit| + |s.submit|;
        if i < k then o in s.ticket && a.ticket[o] == s.ticket[o] && a.internals[o] == s.internals[o] else
          var number := |s.published| - |s.usedRing| + (i - k);
          && a.ticket[o] == number < |s.published|
          && a.internals[o] == Internal(s.published[number], false, s.internals[o].hasEntry)
      ensures forall i :: 0 <= i < events ==>
        var o := trace[0].submit[i];
        handed[|old(handed)| + i] == Handed(trace[0].ticket[o], trace[0].internals[o].request)
      ensures forall i :: 0 <= i < events ==>
        var a := trace[0].internals[trace[0].submit[i]];
        var found := if a.noLookup then a.hasEntry else look(i).found;
        verdicts[i] ==
          if a.request.op == GET then
            if !found then Answer(NotExist)
            else if look(i).writing || look(i).deleting then Aside
            else if !look(i).resident then Await(Requesting)
            else if look(i).cached then Answer(Success)
            else Await(Loading)
          else if a.request.op.UNKNOWN? then Answer(OpUnknown)
          else match outcome(i)
            case Finishes(code) => Answer(HandlerStatus(code))
            case Requeues => Aside
            case Keeps => Await(Loading)
      ensures forall i :: 0 <= i < events ==>
        && Handles(trace[i], look(i), verdicts[i], trace[i + 1])
        && var r := trace[0].internals[trace[0].submit[i]].request;
           trace[i + 1].calls == trace[i].calls +
             if verdicts[i].Answer? then [Callback(r.cb, r.ctx, verdicts[i].status)] else []
    {
      hide *;
      ghost var s, n := Now(), 0;
      n, events, trace, verdicts := PollBoth(maxIo, pendingIo, look, outcome);
      AllEvents(trace, look, outcome, verdicts);
      AllCarried(s, n, trace[0]);
      DrainedBy(trace, look, outcome, verdicts, events);
    }

    /** The two halves. */
    method PollBoth(maxIo: nat, pendingIo: nat, look: nat -> Look, outcome: nat -> Outcome)
      returns (ghost n: nat, events: nat, ghost trace: seq<State>, ghost verdicts: seq<Verdict>)
      requires Valid() && phase == Idle
      modifies this`phase, this`processSize, this`submit, this`resubmit, this`freeRing, this`usedRing, this`batch
      modifies this`copied, this`ticket, this`carrier, this`inFlight, this`calls, this`answered, this`handed
      modifies internals, pool`nbFrees, pool`frees, pool.next
      ensures Valid() && phase == Idle && submit == [] && |trace| == events + 1 && |verdicts| == events
      ensures
        var s, n := old(Now()), events - |old(resubmit)| - |old(submit)|;
        var io := if maxIo < pendingIo then 0 else maxIo - pendingIo;
        && 0 <= n <= |s.usedRing| <= |published| && n <= |s.frees| && n <= io
        && (n == |s.usedRing| || n == |s.frees| || n == io)
        && usedRing == s.usedRing[n..] && freeRing == s.freeRing + s.usedRing[..n]
      ensures
        var s, q, p, queue := old(Now()), |old(resubmit)|, |old(submit)|, trace[0].submit;
        && |queue| == events && (forall j :: 0 <= j < q ==> queue[j] == s.resubmit[q - 1 - j])
        && queue[q..q + p] == s.submit && queue[q + p..] == s.frees[..events - q - p]
      ensures
        var s, a := old(Now()), trace[0];
        && a.calls == s.calls && a.answered == s.answered && a.inFlight == s.inFlight && a.resubmit == []
        && a.handed == s.handed && a.frees == s.frees[events - |s.resubmit| - |s.submit|..]
      ensures trace[events].(phase := Idle) == Now()
      ensures Distinct(trace[0].submit) && TakenIn(old(Now()), n, trace[0]) && Drains(trace, look, outcome, verdicts)
      ensures trace[0].handed == old(handed) && trace[events].handed == handed
    {
      hide *;
      ghost var s := Now();
      NowIs();
      n := PollAccept(maxIo, pendingIo);
      IsLeast(n, |s.usedRing|, |s.frees|, maxIo, pendingIo);
      NowIs();
      SubmitDistinct();
      QueueIs(s, n, Now());
      TakenInRest(s, n, Now());
      events, trace, verdicts := PollDrain(look, outcome);
      NowIs();
      PollEnd();
    }

    method PollEnd()
      requires Valid() && phase == Draining && submit == []
      modifies this`phase
      ensures Valid() && phase == Idle && Now() == old(Now()).(phase := Idle)
    {
      hide Carried, HeldAs, SentAs, HandedAs, Seen, Copies, Answers, Holding, BuffersPart, ObjectsPart;
      hide Pool.Valid, Pool.Out, Upto, Circulating, Accepted;
      phase := Idle;
    }

    // --- any interleaving ---

    /** Makes one step of a producer, if it can be made now. */
    method ProducerStep(step: Step)
      requires Valid() && (step.Take? || step.Fill? || step.Publish?)
      modifies this`freeRing, this`usedRing, this`held, this`published, this`taken, this`sent, this`callOf, this`holder
      modifies requests
      ensures Valid() && ProducerMoves(old(Now()), step, Now())
    {
      hide Valid;
      match step {
        case Take(order) => if freeRing != [] { var b := TakeBuffer(order); }
        case Fill(producer, b) => if b in held && held[b].order.producer == producer { FillBuffer(producer, b); }
        case Publish(producer, b) =>
          if b in held && held[b].order.producer == producer && held[b].filled { SubmitBuffer(producer, b); }
        case _ =>
      }
    }

    method CopyStep()
      requires Valid()
      modifies this`submit, this`copied, this`ticket, this`carrier, internals, pool`nbFrees, pool`frees, pool.next
      ensures Valid() && PollerMoves(old(Now()), Copy, Now())
    {
      hide *;
      ghost var s, n := Now(), 0;
      NowIs();
      if phase == Copying && copied < |batch| {
        PollCopy();
        NowIs();
        n := |published| - |usedRing| - (|batch| - s.copied);
      }
      IsCopied(s, n, Now());
    }

    method CountStep(maxIo: nat, pendingIo: nat)
      requires Valid()
      modifies this`phase, this`processSize
      ensures Valid() && PollerMoves(old(Now()), Count(maxIo, pendingIo), Now())
    {
      hide *;
      ghost var s := Now();
      NowIs();
      if phase == Idle {
        PollCount(maxIo, pendingIo);
        NowIs();
      }
      IsCounted(s, maxIo, pendingIo, Now());
    }

    method RequeueStep()
      requires Valid()
      modifies this`submit, this`resubmit
      ensures Valid() && PollerMoves(old(Now()), Requeue, Now())
    {
      hide *;
      ghost var s := Now();
      NowIs();
      if phase == Counted {
        PollRequeue();
        NowIs();
      }
      IsRequeued(s, Now());
    }

    method DequeueStep()
      requires Valid()
      modifies this`phase, this`usedRing, this`batch, this`copied
      ensures Valid() && PollerMoves(old(Now()), Dequeue, Now())
    {
      hide *;
      ghost var s := Now();
      NowIs();
      if phase == Counted {
        PollDequeue();
        NowIs();
      }
      IsDequeued(s, Now());
    }

    method GiveBackStep(step: Step)
      requires Valid() && (step.Recycle? || step.End?)
      modifies this`phase, this`freeRing, this`batch, this`copied
      ensures Valid() && PollerMoves(old(Now()), step, Now())
    {
      hide Valid;
      match step {
        case Recycle => if phase == Copying && copied == |batch| { PollFinish(); }
        case End => if phase == Draining && submit == [] { PollEnd(); }
        case _ =>
      }
    }

    /** Makes one step of the poller, if it can be made now. */
    method PollerStep(step: Step)
      requires Valid()
      requires step.Count? || step.Requeue? || step.Dequeue? || step.Copy? || step.Recycle? || step.End?
      modifies this`phase, this`processSize, this`submit, this`resubmit, this`freeRing, this`usedRing, this`batch
      modifies this`copied, this`ticket, this`carrier, internals, pool`nbFrees, pool`frees, pool.next
      ensures Valid() && PollerMoves(old(Now()), step, Now())
    {
      hide Valid, PollerMoves;
      match step {
        case Count(maxIo, pendingIo) => CountStep(maxIo, pendingIo);
        case Requeue => RequeueStep();
        case Dequeue => DequeueStep();
        case Copy => CopyStep();
        case Recycle => GiveBackStep(step);
        case End => GiveBackStep(step);
        case _ =>
      }
    }

    /** Hands over the first queued request, if that can be done now. */
    method HandlerStep(look: Look, outcome: Outcome)
      requires Valid()
      modifies this`submit, this`inFlight, this`resubmit, this`calls, this`answered, this`handed, internals
      modifies pool`nbFrees, pool`frees, pool.next
      ensures Valid() && HandlerMoves(old(Now()), look, outcome, Now())
    {
      hide Valid, Handles, Due;
      if phase == Draining && submit != [] {
        ghost var verdict := HandOver(look, outcome);
      }
    }

    /** Makes one completion, if it can come now. */
    method CompletionStep(step: Step)
      requires Valid() && (step.Chunk? || step.Load?)
      modifies this`inFlight, this`calls, this`answered, pool`nbFrees, pool`frees, pool.next
      ensures Valid() && CompletionMoves(old(Now()), step, Now())
    {
      hide *;
      ghost var s := Now();
      NowIs();
      match step {
        case Chunk(o) =>
          if o in inFlight && inFlight[o] == Requesting {
            ChunkReady(o);
            NowIs();
          }
          IsReady(s, o, Now());
        case Load(o, failed) =>
          if o in inFlight && inFlight[o] == Loading {
            LoadDone(o, failed);
            NowIs();
          }
          IsLoaded(s, o, failed, Now());
        case _ =>
      }
    }

    /** Makes one step of whoever makes it. */
    method StepOnce(step: Step)
      requires Valid()
      modifies this, requests, internals, pool`nbFrees, pool`frees, pool.next
      ensures Valid() && Moves(old(Now()), step, Now())
    {
      hide *;
      ghost var s := Now();
      match step {
        case Take(_) => ProducerStep(step);
        case Fill(_, _) => ProducerStep(step);
        case Publish(_, _) => ProducerStep(step);
        case Chunk(_) => CompletionStep(step);
        case Load(_, _) => CompletionStep(step);
        case Process(look, outcome) => HandlerStep(look, outcome);
        case _ => PollerStep(step);
      }
      IsMove(s, step, Now());
    }

    /** Whatever the order of the steps, the invariant holds after each, and each does what it should: trace holds the
        states in between. Every callback was made by one step, which origin names, with the status that this step
        demands; every request that a handler has got so far has the fields of the call that published it. */
    method Run(steps: seq<Step>) returns (ghost trace: seq<State>, ghost origin: seq<nat>)
      requires Valid()
      modifies this, requests, internals, pool`nbFrees, pool`frees, pool.next
      ensures Valid() && |trace| == |steps| + 1 && trace[0] == old(Now()) && trace[|steps|] == Now()
      ensures forall i {:trigger steps[i]} :: 0 <= i < |steps| ==> Moves(trace[i], steps[i], trace[i + 1])
      ensures forall i {:trigger steps[i]} :: 0 <= i < |steps| ==>
        var s, t := trace[i], trace[i + 1];
        match steps[i]
        case Load(o, failed) =>
          if o in s.inFlight && s.inFlight[o] == Loading then
            && o < |s.internals|
            && t.calls == s.calls + [Callback(s.internals[o].request.cb, s.internals[o].request.ctx,
                 if failed then IoError else Success)]
          else t.calls == s.calls
        case Process(look, outcome) =>
          if s.phase == Draining && s.submit != [] then
            && s.submit[0] < |s.internals|
            && var a := s.internals[s.submit[0]];
               var found := if a.noLookup then a.hasEntry else look.found;
               t.calls == s.calls +
                 if a.request.op == GET then
                   if !found then [Callback(a.request.cb, a.request.ctx, NotExist)]
                   else if !look.writing && !look.deleting && look.resident && look.cached then
                     [Callback(a.request.cb, a.request.ctx, Success)]
                   else []
                 else if a.request.op.UNKNOWN? then [Callback(a.request.cb, a.request.ctx, OpUnknown)]
                 else if outcome.Finishes? then
                   [Callback(a.request.cb, a.request.ctx, HandlerStatus(outcome.code))]
                 else []
          else t.calls == s.calls
        case _ => t.calls == s.calls
      ensures |calls| == |old(calls)| + |origin| && old(calls) <= calls
      ensures forall j :: 0 <= j < |origin| ==>
        && origin[j] < |steps| && |trace[origin[j]].calls| == |old(calls)| + j
        && trace[origin[j] + 1].calls == calls[..|old(calls)| + j + 1]
      ensures Extends(old(Now()), Now()) && |sent| == |published|
      ensures forall i :: 0 <= i < |handed| ==>
        && handed[i].ticket < |published| && sent[handed[i].ticket] < |taken|
        && var r, order := handed[i].request, taken[sent[handed[i].ticket]];
           && r.op == order.op && r.shard == order.shard && r.item == order.item && r.cb == order.cb
           && r.ctx == order.ctx
    {
      hide *;
      ghost var was := Now();
      NowIs();
      trace := [was];
      var i := 0;
      RunsNone(was);
      assert steps[..0] == [];
      while i < |steps|
        invariant Valid() && i <= |steps| && |trace| == i + 1 && trace[0] == was && trace[i] == Now()
        invariant Runs(trace, steps[..i]) && Extends(was, Now())
      {
        StepOnce(steps[i]);
        ghost var t := Now();
        MovesExtend(trace[i], steps[i], t);
        ExtendsOn(was, trace[i], t);
        RunsMore(trace, steps[..i], steps[i], t);
        assert steps[..i + 1] == steps[..i] + [steps[i]];
        trace, i := trace + [t], i + 1;
      }
      assert steps[..i] == steps;
      RunsMeans(trace, steps);
      AllCalls(trace, steps);
      origin := Origins(trace, steps, i);
      CallsFromMeans(trace, i, origin);
      NowIs();
      HandedAsOrdered();
    }

    // --- what holds in every reachable state ---

    /** Free objects and requests in the worker's hands always add up to the pool. */
    lemma ObjectsConserved()
      requires Valid()
      ensures pool.nbFrees + |submit| + |resubmit| + |inFlight| == nbMaxReqs
    {
      pool.Conserved();
      ObjectCounts(pool.Out(), submit, resubmit, inFlight.Keys);
      assert |inFlight| == |inFlight.Keys|;
    }

    /** Buffers are neither lost nor doubled, so no ring ever overflows. */
    lemma BuffersConserved()
      requires Valid()
      ensures |freeRing| + |usedRing| + |held.Keys| + |batch| == Circulating() <= ringSize
    {
      BufferCounts(freeRing, usedRing, held.Keys, batch, Circulating());
    }

    /** Every request handed over has the fields of the call that published it, and no call publishes twice. */
    lemma HandedAsOrdered()
      requires Valid()
      ensures |sent| == |published| && Distinct(sent)
      ensures forall i :: 0 <= i < |handed| ==>
        && handed[i].ticket < |published| && sent[handed[i].ticket] < |taken|
        && var r, order := handed[i].request, taken[sent[handed[i].ticket]];
           && r.op == order.op && r.shard == order.shard && r.item == order.item && r.cb == order.cb
           && r.ctx == order.ctx
    {
    }

    /** When the worker has nothing left to do, each published request has been handed to a handler and answered exactly
        once, to its own callback. */
    lemma AllCalled()
      requires Valid() && usedRing == [] && batch == [] && submit == [] && resubmit == [] && inFlight == map[]
      ensures multiset(answered) == multiset(Upto(|published|)) && |calls| == |published|
      ensures forall j :: 0 <= j < |calls| ==>
        && answered[j] < |published| && calls[j].cb == published[answered[j]].cb
        && calls[j].ctx == published[answered[j]].ctx
        && Met(handed, answered[j])
    {
      assert pool.Out() == {} by {
        ObjectCounts(pool.Out(), submit, resubmit, inFlight.Keys);
        assert |inFlight.Keys| == 0;
      }
      AllAnswered(ticket, carrier, answered, |published|);
      assert |multiset(answered)| == |multiset(Upto(|published|))|;
    }

    /** When no producer is in the middle of a call either, each call made has been answered exactly once: to the
        callback, with the context, that this call gave. */
    lemma AllServed()
      requires Valid() && usedRing == [] && batch == [] && submit == [] && resubmit == [] && inFlight == map[]
      requires held == map[]
      ensures |calls| == |answered| == |sent| == |taken|
      ensures multiset(sent) == multiset(answered) == multiset(Upto(|taken|))
      ensures forall j :: 0 <= j < |calls| ==>
        && answered[j] < |sent| && sent[answered[j]] < |taken|
        && calls[j].cb == taken[sent[answered[j]]].cb && calls[j].ctx == taken[sent[answered[j]]].ctx
    {
      AllCalled();
      assert held.Keys == {};
      AllAnswered(callOf, holder, sent, |taken|);
      assert |multiset(sent)| == |multiset(Upto(|taken|))|;
    }
  }
}
