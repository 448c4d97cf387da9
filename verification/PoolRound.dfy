/** One receive round of a pool (src/tachyon/pool.rs): workers that share FIFO queues of
    servers, message queues and receive buffers, interleaved in any way. */
module PoolRound {
  import opened Sequence
  import opened IntBuffers

  /** A received message; `server` records where it came from. */
  datatype Message = Message(server: U16, bytes: Bytes)

  /** A server and the messages it will return before it runs empty. */
  datatype Server = Server(id: U16, pending: seq<Message>)

  const RECEIVE_LIMIT := 100000

  /** What `receive_server` takes from a server, and the server afterwards. */
  function Taken(s: Server): seq<Message> {
    if |s.pending| <= RECEIVE_LIMIT then s.pending else s.pending[..RECEIVE_LIMIT]
  }

  function Advance(s: Server): Server {
    s.(pending := s.pending[|Taken(s)|..])
  }

  /** Receiving from a server has moved its oldest messages, as many as there are up to the limit. */
  predicate ReceivedFrom(before: Server, after: Server, gained: seq<Message>) {
    && after.id == before.id && gained + after.pending == before.pending
    && |gained| == if |before.pending| < RECEIVE_LIMIT then |before.pending| else RECEIVE_LIMIT
  }

  lemma TakenIsReceived(s: Server)
    ensures ReceivedFrom(s, Advance(s), Taken(s))
  {
  }

  /** The state of a worker: what it holds and what it does next. */
  datatype Worker =
    | PopServer
    | PopQueue(server: Server)
    | PopBuffer(server: Server, queue: seq<Message>)
    | Receiving(server: Server, queue: seq<Message>)
    | PushBuffer(server: Server, queue: seq<Message>)
    | PushQueue(server: Server, queue: seq<Message>)
    | PushServer(server: Server)
    | Signal
    | Finished

  /** The shared queues and the workers.  `log` records the servers received from, as they were before;
      `dropped` counts failed pushes and `missed` failed pops. */
  datatype Round = Round(
    capacity: nat,
    servers: seq<Server>,
    queues: seq<seq<Message>>,
    buffers: nat,
    workers: seq<Worker>,
    pending: nat,
    log: seq<Server>,
    popped: nat,
    dropped: nat,
    missed: nat)

  function Idle(n: nat): seq<Worker> {
    seq(n, _ => PopServer)
  }

  /** `receive`: all servers in the queue, one worker for each, everything else idle. */
  function Begin(servers: seq<Server>, capacity: nat): Round {
    Round(capacity, servers, seq(capacity, _ => []), capacity, Idle(|servers|), |servers|, [], 0, 0, 0)
  }

  function Push<T>(queue: seq<T>, capacity: nat, x: T): seq<T> {
    if |queue| < capacity then queue + [x] else queue
  }

  function Failed(length: nat, capacity: nat): nat {
    if length < capacity then 0 else 1
  }

  /** What is pushed is lost exactly when the push is counted as failed. */
  lemma PushFails<T>(queue: seq<T>, capacity: nat, x: T)
    ensures Push(queue, capacity, x) == queue + [x] <==> Failed(|queue|, capacity) == 0
    ensures Push(queue, capacity, x) == queue <==> Failed(|queue|, capacity) == 1
  {
    assert |queue + [x]| == |queue| + 1;
  }

  /** One step of worker `i`. */
  function Step(r: Round, i: nat): Round
    requires i < |r.workers|
  {
    match r.workers[i]
    case PopServer =>
      if r.servers == [] then r.(workers := r.workers[i := Signal], popped := r.popped + 1, missed := r.missed + 1)
      else r.(servers := r.servers[1..], workers := r.workers[i := PopQueue(r.servers[0])], popped := r.popped + 1)
    case PopQueue(s) =>
      if r.queues == [] then r.(workers := r.workers[i := PushServer(s)], missed := r.missed + 1)
      else r.(queues := r.queues[1..], workers := r.workers[i := PopBuffer(s, r.queues[0])])
    case PopBuffer(s, q) =>
      if r.buffers == 0 then r.(workers := r.workers[i := PushQueue(s, q)], missed := r.missed + 1)
      else r.(buffers := r.buffers - 1, workers := r.workers[i := Receiving(s, q)])
    case Receiving(s, q) =>
      r.(workers := r.workers[i := PushBuffer(Advance(s), q + Taken(s))], log := r.log + [s])
    case PushBuffer(s, q) =>
      r.(buffers := if r.buffers < r.capacity then r.buffers + 1 else r.buffers,
         workers := r.workers[i := PushQueue(s, q)], dropped := r.dropped + Failed(r.buffers, r.capacity))
    case PushQueue(s, q) =>
      r.(queues := Push(r.queues, r.capacity, q),
         workers := r.workers[i := PushServer(s)], dropped := r.dropped + Failed(|r.queues|, r.capacity))
    case PushServer(s) =>
      r.(servers := Push(r.servers, r.capacity, s),
         workers := r.workers[i := Signal], dropped := r.dropped + Failed(|r.servers|, r.capacity))
    case Signal =>
      r.(workers := r.workers[i := Finished], pending := if r.pending > 0 then r.pending - 1 else 0)
    case Finished => r
  }

  /** The round after the workers named by `schedule` took their steps. */
  function Run(r: Round, schedule: seq<nat>): Round
    requires forall k :: 0 <= k < |schedule| ==> schedule[k] < |r.workers|
    ensures |Run(r, schedule).workers| == |r.workers|
  {
    if schedule == [] then r
    else Step(Run(r, schedule[..|schedule| - 1]), schedule[|schedule| - 1])
  }

  /** The countdown has reached zero, which `finish_receive` waits for. */
  predicate Complete(r: Round) {
    forall i :: 0 <= i < |r.workers| ==> r.workers[i].Finished?
  }

  // ---- finishing ----

  function Flatten(queues: seq<seq<Message>>): seq<Message> {
    if queues == [] then [] else queues[0] + Flatten(queues[1..])
  }

  function ToMap(servers: seq<Server>): map<U16, Server> {
    if servers == [] then map[]
    else ToMap(servers[..|servers| - 1])[servers[|servers| - 1].id := servers[|servers| - 1]]
  }

  /** The messages that came from server `id`, in order. */
  function From(messages: seq<Message>, id: U16): seq<Message> {
    if messages == [] then []
    else (if messages[0].server == id then [messages[0]] else []) + From(messages[1..], id)
  }

  // ---- what the workers hold ----

  /** The server a worker holds and has not received from yet. */
  function ServerBefore(w: Worker): multiset<Server> {
    if w.PopQueue? || w.PopBuffer? || w.Receiving? then multiset{w.server} else multiset{}
  }

  /** The server a worker holds and has received from. */
  function ServerAfter(w: Worker): multiset<Server> {
    if w.PushBuffer? || w.PushQueue? || w.PushServer? then multiset{w.server} else multiset{}
  }

  function HeldQueue(w: Worker): multiset<seq<Message>> {
    if w.PopBuffer? || w.Receiving? || w.PushBuffer? || w.PushQueue? then multiset{w.queue} else multiset{}
  }

  predicate HoldsBuffer(w: Worker) {
    w.Receiving? || w.PushBuffer?
  }

  predicate HasPopped(w: Worker) {
    !w.PopServer?
  }

  /** Everything the workers hold, taken together. */
  function Sum<T>(workers: seq<Worker>, f: Worker -> multiset<T>): multiset<T> {
    if workers == [] then multiset{} else f(workers[0]) + Sum(workers[1..], f)
  }

  function Count(workers: seq<Worker>, p: Worker -> bool): nat {
    if workers == [] then 0 else (if p(workers[0]) then 1 else 0) + Count(workers[1..], p)
  }

  /** Changing one worker changes the sum by what that worker holds. */
  lemma {:induction false} SumUpdate<T>(workers: seq<Worker>, i: nat, w: Worker, f: Worker -> multiset<T>)
    requires i < |workers|
    ensures Sum(workers[i := w], f) + f(workers[i]) == Sum(workers, f) + f(w)
    ensures f(workers[i]) <= Sum(workers, f)
  {
    var rest := workers[1..];
    if i == 0 {
      assert workers[i := w][1..] == rest;
    } else {
      SumUpdate(rest, i - 1, w, f);
      var rest' := rest[i - 1 := w];
      assert workers[i := w][1..] == rest';
      assert (f(workers[0]) + Sum(rest', f)) + f(workers[i]) == f(workers[0]) + (Sum(rest', f) + f(workers[i]));
      assert (f(workers[0]) + Sum(rest, f)) + f(w) == f(workers[0]) + (Sum(rest, f) + f(w));
    }
  }

  lemma SumSame<T>(workers: seq<Worker>, i: nat, w: Worker, f: Worker -> multiset<T>)
    requires i < |workers| && f(w) == f(workers[i])
    ensures Sum(workers[i := w], f) == Sum(workers, f)
  {
    SumUpdate(workers, i, w, f);
    var a, b := Sum(workers[i := w], f), Sum(workers, f);
    assert a == (a + f(w)) - f(w) && b == (b + f(w)) - f(w);
  }

  lemma SumGain<T>(workers: seq<Worker>, i: nat, w: Worker, f: Worker -> multiset<T>)
    requires i < |workers| && f(workers[i]) == multiset{}
    ensures Sum(workers[i := w], f) == Sum(workers, f) + f(w)
  {
    SumUpdate(workers, i, w, f);
  }

  lemma SumLose<T>(workers: seq<Worker>, i: nat, w: Worker, f: Worker -> multiset<T>)
    requires i < |workers| && f(w) == multiset{}
    ensures Sum(workers[i := w], f) + f(workers[i]) == Sum(workers, f)
  {
    SumUpdate(workers, i, w, f);
  }

  lemma {:induction false} CountUpdate(workers: seq<Worker>, i: nat, w: Worker, p: Worker -> bool)
    requires i < |workers|
    ensures Count(workers[i := w], p) + (if p(workers[i]) then 1 else 0) == Count(workers, p) + (if p(w) then 1 else 0)
    ensures (if p(workers[i]) then 1 else 0) <= Count(workers, p) <= |workers| - (if p(workers[i]) then 0 else 1)
  {
    var rest := workers[1..];
    if i == 0 {
      assert workers[i := w][1..] == rest;
      CountBound(rest, p);
    } else {
      CountUpdate(rest, i - 1, w, p);
      assert workers[i := w][1..] == rest[i - 1 := w];
    }
  }

  lemma {:induction false} CountBound(workers: seq<Worker>, p: Worker -> bool)
    ensures Count(workers, p) <= |workers|
    ensures (forall i :: 0 <= i < |workers| ==> !p(workers[i])) ==> Count(workers, p) == 0
    ensures (forall i :: 0 <= i < |workers| ==> p(workers[i])) ==> Count(workers, p) == |workers|
  {
    if workers != [] {
      var rest := workers[1..];
      assert forall i :: 0 <= i < |rest| ==> rest[i] == workers[i + 1];
      CountBound(rest, p);
    }
  }

  lemma {:induction false} SumEmpty<T>(workers: seq<Worker>, f: Worker -> multiset<T>)
    requires forall i :: 0 <= i < |workers| ==> f(workers[i]) == multiset{}
    ensures Sum(workers, f) == multiset{}
  {
    if workers != [] {
      var rest := workers[1..];
      assert forall i :: 0 <= i < |rest| ==> rest[i] == workers[i + 1];
      SumEmpty(rest, f);
    }
  }

  /** If each worker holds at most one thing, worker `i` nothing, there is room for one more. */
  lemma {:induction false} SumBound<T>(workers: seq<Worker>, f: Worker -> multiset<T>, i: nat)
    requires i < |workers| && f(workers[i]) == multiset{}
    requires forall k :: 0 <= k < |workers| ==> |f(workers[k])| <= 1
    ensures |Sum(workers, f)| < |workers|
  {
    var rest := workers[1..];
    assert forall k :: 0 <= k < |rest| ==> rest[k] == workers[k + 1];
    if i > 0 {
      SumBound(rest, f, i - 1);
    } else {
      SumSize(rest, f);
    }
  }

  lemma {:induction false} SumSize<T>(workers: seq<Worker>, f: Worker -> multiset<T>)
    requires forall k :: 0 <= k < |workers| ==> |f(workers[k])| <= 1
    ensures |Sum(workers, f)| <= |workers|
  {
    if workers != [] {
      var rest := workers[1..];
      assert forall k :: 0 <= k < |rest| ==> rest[k] == workers[k + 1];
      SumSize(rest, f);
    }
  }
}
