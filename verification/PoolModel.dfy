/**
 Concurrent requests sharing one pool of output buffers.  Buffers live in a heap and requests hold
 them by identity, so two requests holding the same buffer would see each other's output.

 A handler is any function from what it has observed so far to its next operation.
 */
module PoolModel {
  import opened Basics
  import opened OutputModel

  type ReqId = nat
  type BufId = nat
  type Handler = seq<Obs> -> Op

  const MAX_BUFFER_SIZE := 20000

  // ---------------------------------------------------------------- one request, in turns

  datatype Stage =
    | Running                               // inside the handler
    | Closing(panic: Option<PanicValue>)    // the deferred return of the buffer comes next
    | Unwinding(value: PanicValue)          // the panic is on its way to the error handler
    | Over(final: Final)

  datatype Task = Task(local: Local, seen: seq<Obs>, stage: Stage)

  predicate Holding(stage: Stage) {
    stage.Running? || stage.Closing?
  }

  function Begun(header: Header): Task {
    Task(Fresh(header), [], Running)
  }

  /** One indivisible turn of a request. */
  function Turn(handler: Handler, t: Task): Task {
    match t.stage
    case Running =>
      (match Act(t.local, handler(t.seen))
       case Continues(next, obs) => Task(next, t.seen + [obs], Running)
       case Panics(next, value) => Task(next, t.seen, Closing(Some(value)))
       case Returns(next) =>
         match Finish(next)
         case Some(w) => Task(next.(wire := w), t.seen, Closing(None))
         case None => Task(next, t.seen, Closing(Some(OtherValue))))
    case Closing(panic) =>
      t.(local := t.local.(buf := []),
         stage := if panic.None? then Over(Sent(t.local.wire)) else Unwinding(panic.value))
    case Unwinding(value) => t.(stage := Over(Recover(t.local.wire, value)))
    case Over(_) => t
  }

  /** A request run by itself for `n` turns, with a buffer of its own. */
  ghost function Alone(handler: Handler, header: Header, n: nat): Task {
    if n == 0 then Begun(header) else Turn(handler, Alone(handler, header, n - 1))
  }

  // ---------------------------------------------------------------- all requests together

  /** While a request holds a buffer its contents are in the heap, not in the task. */
  datatype Request = Request(buf: BufId, task: Task)

  datatype World = World(heap: map<BufId, Bytes>, pool: set<BufId>, requests: map<ReqId, Request>)

  datatype Step =
    | Begin(r: ReqId, b: BufId)           // GetBuffer: any pooled buffer, or a new one
    | Advance(r: ReqId, capacity: nat)
    | Drop(b: BufId)                      // the garbage collector empties part of the pool

  const EMPTY := World(map[], {}, map[])

  ghost predicate Held(w: World, r: ReqId) {
    r in w.requests && Holding(w.requests[r].task.stage)
  }

  /** A request as it sees itself: its buffer is whatever the heap has there. */
  ghost function View(w: World, r: ReqId): Task
    requires r in w.requests
  {
    var q := w.requests[r];
    if Holding(q.task.stage) && q.buf in w.heap
    then q.task.(local := q.task.local.(buf := w.heap[q.buf])) else q.task
  }

  function Stored(t: Task): Task {
    t.(local := t.local.(buf := []))
  }

  ghost predicate Enabled(w: World, e: Step) {
    match e
    case Begin(r, b) => r !in w.requests && (b in w.pool || b !in w.heap)
    case Advance(r, capacity) =>
      r in w.requests && !w.requests[r].task.stage.Over? && |View(w, r).local.buf| <= capacity
    case Drop(b) => b in w.pool
  }

  ghost function Apply(handlers: ReqId -> Handler, header: Header, w: World, e: Step): World
    requires Enabled(w, e)
  {
    match e
    case Begin(r, b) =>
      World(if b in w.heap then w.heap else w.heap[b := []],
            w.pool - {b},
            w.requests[r := Request(b, Begun(header))])
    case Advance(r, capacity) =>
      var b, t := w.requests[r].buf, View(w, r);
      var u := Turn(handlers(r), t);
      var q := w.requests[r := Request(b, Stored(u))];
      (match t.stage
       case Running => World(w.heap[b := u.local.buf], w.pool, q)
       case Closing(_) =>
         if capacity < MAX_BUFFER_SIZE
         then World(w.heap[b := []], w.pool + {b}, q)
         else World(w.heap, w.pool, q)
       case _ => World(w.heap, w.pool, q))
    case Drop(b) => w.(pool := w.pool - {b})
  }

  /** A buffer is never both pooled and held, nor held twice, and every pooled buffer is empty. */
  ghost predicate Exclusive(w: World) {
    && (forall b | b in w.pool :: b in w.heap && w.heap[b] == [])
    && (forall r | Held(w, r) :: w.requests[r].buf in w.heap && w.requests[r].buf !in w.pool)
    && (forall r, r' | Held(w, r) && Held(w, r') && r != r' :: w.requests[r].buf != w.requests[r'].buf)
    && (forall r | r in w.requests :: w.requests[r].task.local.buf == [])
  }

  ghost predicate Legal(handlers: ReqId -> Handler, header: Header, es: seq<Step>)
    decreases |es|, 0
  {
    es == [] || (Legal(handlers, header, es[..|es| - 1]) && Enabled(After(handlers, header, es[..|es| - 1]), es[|es| - 1]))
  }

  ghost function After(handlers: ReqId -> Handler, header: Header, es: seq<Step>): World
    requires Legal(handlers, header, es)
    decreases |es|, 1
  {
    if es == [] then EMPTY
    else Apply(handlers, header, After(handlers, header, es[..|es| - 1]), es[|es| - 1])
  }

  /** How many turns a request has had in a run. */
  ghost function Turns(es: seq<Step>, r: ReqId): nat {
    if es == [] then 0 else
      var e := es[|es| - 1];
      Turns(es[..|es| - 1], r) + if e.Advance? && e.r == r then 1 else 0
  }

  lemma BeginKeepsExclusive(handlers: ReqId -> Handler, header: Header, w: World, r: ReqId, b: BufId)
    requires Exclusive(w) && Enabled(w, Begin(r, b))
    ensures Exclusive(Apply(handlers, header, w, Begin(r, b)))
    ensures View(Apply(handlers, header, w, Begin(r, b)), r) == Begun(header)
  {
    var v := Apply(handlers, header, w, Begin(r, b));
    assert v.heap[b] == [];
    forall q, q' | Held(v, q) && Held(v, q') && q != q'
      ensures v.requests[q].buf != v.requests[q'].buf
    {
      assert q != r ==> Held(w, q);
      assert q' != r ==> Held(w, q');
    }
  }

  lemma AdvanceKeepsExclusive(handlers: ReqId -> Handler, header: Header, w: World, r: ReqId, capacity: nat)
    requires Exclusive(w) && Enabled(w, Advance(r, capacity))
    ensures Exclusive(Apply(handlers, header, w, Advance(r, capacity)))
  {
    var v := Apply(handlers, header, w, Advance(r, capacity));
    assert forall q | q != r :: Held(v, q) <==> Held(w, q);
    assert Held(v, r) ==> Held(w, r);
  }

  lemma AdvanceTurns(handlers: ReqId -> Handler, header: Header, w: World, r: ReqId, capacity: nat)
    requires Exclusive(w) && Enabled(w, Advance(r, capacity))
    ensures View(Apply(handlers, header, w, Advance(r, capacity)), r) == Turn(handlers(r), View(w, r))
  {
    var t := View(w, r);
    assert Held(w, r) <==> Holding(t.stage);
    assert t.stage == w.requests[r].task.stage;
  }

  /** When a request gives its buffer back, the buffer is pooled exactly if it has not grown to the limit;
      a request that begins takes its buffer out of the pool. */
  lemma BufferIsRecycledIff(handlers: ReqId -> Handler, header: Header, w: World, r: ReqId, capacity: nat, b: BufId)
    requires Exclusive(w)
    ensures Enabled(w, Advance(r, capacity)) && w.requests[r].task.stage.Closing? ==>
            (w.requests[r].buf in Apply(handlers, header, w, Advance(r, capacity)).pool <==> capacity < 20000)
    ensures Enabled(w, Begin(r, b)) ==>
            var v := Apply(handlers, header, w, Begin(r, b));
            v.requests[r].buf == b && v.pool == w.pool - {b}
  {
    if Enabled(w, Advance(r, capacity)) && w.requests[r].task.stage.Closing? {
      assert Held(w, r);
    }
  }

  /** A step of one request, or of the collector, is invisible to every other request. */
  lemma OthersUnaffected(handlers: ReqId -> Handler, header: Header, w: World, e: Step, q: ReqId)
    requires Exclusive(w) && Enabled(w, e) && q in w.requests
    requires e.Advance? ==> e.r != q
    ensures q in Apply(handlers, header, w, e).requests
    ensures View(Apply(handlers, header, w, e), q) == View(w, q)
  {
    var v := Apply(handlers, header, w, e);
    if Held(w, q) {
      match e
      case Begin(r, b) => assert b != w.requests[q].buf;
      case Advance(r, _) => assert Held(w, r) ==> w.requests[r].buf != w.requests[q].buf;
      case Drop(_) =>
    }
  }

  lemma {:induction false} BuffersAreExclusive(handlers: ReqId -> Handler, header: Header, es: seq<Step>)
    requires Legal(handlers, header, es)
    ensures Exclusive(After(handlers, header, es))
  {
    if es != [] {
      var before, e := es[..|es| - 1], es[|es| - 1];
      BuffersAreExclusive(handlers, header, before);
      var w := After(handlers, header, before);
      match e
      case Begin(r, b) => BeginKeepsExclusive(handlers, header, w, r, b);
      case Advance(r, capacity) => AdvanceKeepsExclusive(handlers, header, w, r, capacity);
      case Drop(_) =>
    }
  }

  lemma {:induction false} NoTurnsBeforeBegin(handlers: ReqId -> Handler, header: Header, es: seq<Step>, r: ReqId)
    requires Legal(handlers, header, es) && r !in After(handlers, header, es).requests
    ensures Turns(es, r) == 0
  {
    if es != [] {
      NoTurnsBeforeBegin(handlers, header, es[..|es| - 1], r);
    }
  }

  lemma ViewStep(handlers: ReqId -> Handler, header: Header, w: World, e: Step, r: ReqId)
    requires Exclusive(w) && Enabled(w, e) && r in w.requests
    ensures r in Apply(handlers, header, w, e).requests
    ensures View(Apply(handlers, header, w, e), r) ==
            if e.Advance? && e.r == r then Turn(handlers(r), View(w, r)) else View(w, r)
  {
    if e.Advance? && e.r == r {
      AdvanceTurns(handlers, header, w, r, e.capacity);
    } else {
      OthersUnaffected(handlers, header, w, e, r);
    }
  }

  lemma IsolatedStep(handlers: ReqId -> Handler, header: Header, w: World, e: Step, r: ReqId, n: nat)
    requires Exclusive(w) && Enabled(w, e) && r in Apply(handlers, header, w, e).requests
    requires if r in w.requests then View(w, r) == Alone(handlers(r), header, n) else n == 0
    ensures View(Apply(handlers, header, w, e), r) ==
            Alone(handlers(r), header, if e.Advance? && e.r == r then n + 1 else n)
  {
    if r in w.requests {
      ViewStep(handlers, header, w, e, r);
    } else {
      BeginKeepsExclusive(handlers, header, w, r, e.b);
    }
  }

  /** In every interleaving, each request is exactly where it would be had it run alone for as many
      turns: same buffer, same observations, same response. */
  lemma {:induction false} RequestsAreIsolated(handlers: ReqId -> Handler, header: Header, es: seq<Step>, r: ReqId)
    requires Legal(handlers, header, es) && r in After(handlers, header, es).requests
    ensures View(After(handlers, header, es), r) == Alone(handlers(r), header, Turns(es, r))
  {
    var before := es[..|es| - 1];
    if r in After(handlers, header, before).requests {
      RequestsAreIsolated(handlers, header, before, r);
    }
    LastStepIsolated(handlers, header, es, r);
  }

  lemma LastStepIsolated(handlers: ReqId -> Handler, header: Header, es: seq<Step>, r: ReqId)
    requires Legal(handlers, header, es) && es != [] && r in After(handlers, header, es).requests
    requires var before := es[..|es| - 1];
      r in After(handlers, header, before).requests ==>
      View(After(handlers, header, before), r) == Alone(handlers(r), header, Turns(before, r))
    ensures View(After(handlers, header, es), r) == Alone(handlers(r), header, Turns(es, r))
  {
    var before, e := es[..|es| - 1], es[|es| - 1];
    var w := After(handlers, header, before);
    BuffersAreExclusive(handlers, header, before);
    if r !in w.requests {
      NoTurnsBeforeBegin(handlers, header, before, r);
    }
    IsolatedStep(handlers, header, w, e, r, Turns(before, r));
  }

  // ---------------------------------------------------------------- handlers given as a list of operations

  function Script(ops: seq<Op>): Handler {
    (seen: seq<Obs>) => if |seen| < |ops| then ops[|seen|] else Return
  }

  /** From the operation that ends the handler it takes two or three turns to the response. */
  lemma LastTurns(handler: Handler, t: Task)
    requires t.stage.Running? && !Act(t.local, handler(t.seen)).Continues?
    ensures var final := Over(Conclude(Act(t.local, handler(t.seen))));
      var v := Turn(handler, Turn(handler, t));
      if v.stage.Over? then v.stage == final else Turn(handler, v).stage == final
  {
  }

  lemma AloneEnds(handler: Handler, header: Header, n: nat) returns (m: nat)
    requires var t := Alone(handler, header, n);
      t.stage.Running? && !Act(t.local, handler(t.seen)).Continues?
    ensures var t := Alone(handler, header, n);
      Alone(handler, header, m).stage == Over(Conclude(Act(t.local, handler(t.seen))))
  {
    var t := Alone(handler, header, n);
    LastTurns(handler, t);
    var u := Alone(handler, header, n + 1);
    var v := Alone(handler, header, n + 2);
    assert u == Turn(handler, t) && v == Turn(handler, u);
    m := if v.stage.Over? then n + 2 else n + 3;
  }

  lemma PerformNext(l: Local, ops: seq<Op>, n: nat)
    requires n <= |ops|
    ensures n == |ops| ==> Perform(l, ops[n..]) == Returns(l)
    ensures n < |ops| && Act(l, ops[n]).Continues? ==> Perform(l, ops[n..]) == Perform(Act(l, ops[n]).next, ops[n + 1..])
    ensures n < |ops| && !Act(l, ops[n]).Continues? ==> Perform(l, ops[n..]) == Act(l, ops[n])
  {
    if n < |ops| { assert ops[n..][0] == ops[n] && ops[n..][1..] == ops[n + 1..]; }
  }

  lemma ScriptTurn(ops: seq<Op>, header: Header, n: nat)
    requires var t := Alone(Script(ops), header, n);
      t.stage.Running? && |t.seen| == n < |ops| && Act(t.local, ops[n]).Continues?
    ensures var t, u := Alone(Script(ops), header, n), Alone(Script(ops), header, n + 1);
      u.stage.Running? && |u.seen| == n + 1 && u.local == Act(t.local, ops[n]).next
  {
  }

  lemma {:induction false} ScriptRuns(ops: seq<Op>, header: Header, n: nat) returns (m: nat)
    requires n <= |ops|
    requires var t := Alone(Script(ops), header, n); t.stage.Running? && |t.seen| == n
    ensures Alone(Script(ops), header, m).stage == Over(Conclude(Perform(Alone(Script(ops), header, n).local, ops[n..])))
    decreases |ops| - n
  {
    var h := Script(ops);
    var t := Alone(h, header, n);
    PerformNext(t.local, ops, n);
    if n < |ops| && Act(t.local, ops[n]).Continues? {
      ScriptTurn(ops, header, n);
      m := ScriptRuns(ops, header, n + 1);
    } else {
      m := AloneEnds(h, header, n);
    }
  }

  /** Run alone, a listed handler ends with the response that `Serve` gives. */
  lemma ScriptServes(ops: seq<Op>, header: Header) returns (n: nat)
    ensures Alone(Script(ops), header, n).stage == Over(Serve(header, ops))
  {
    n := ScriptRuns(ops, header, 0);
    assert ops[0..] == ops;
  }

  lemma {:induction false} OverStays(handler: Handler, header: Header, n: nat, m: nat)
    requires n <= m && Alone(handler, header, n).stage.Over?
    ensures Alone(handler, header, m).stage == Alone(handler, header, n).stage
  {
    if n < m { OverStays(handler, header, n, m - 1); }
  }

  /** However requests are interleaved, a finished one has sent exactly what it sends when alone. */
  lemma FinishedAsIfAlone(handlers: ReqId -> Handler, header: Header, es: seq<Step>, r: ReqId, ops: seq<Op>)
    requires Legal(handlers, header, es) && r in After(handlers, header, es).requests
    requires handlers(r) == Script(ops) && After(handlers, header, es).requests[r].task.stage.Over?
    ensures After(handlers, header, es).requests[r].task.stage == Over(Serve(header, ops))
  {
    RequestsAreIsolated(handlers, header, es, r);
    var n := ScriptServes(ops, header);
    var m := Turns(es, r);
    if n <= m { OverStays(Script(ops), header, n, m); } else { OverStays(Script(ops), header, m, n); }
  }
}
