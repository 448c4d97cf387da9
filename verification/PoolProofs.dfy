/** A receive round conserves servers, queues, buffers and messages under every interleaving. */
module PoolProofs {
  import opened Sequence
  import opened PoolRound

  // ---- where a server's messages are ----

  /** Among the queues, the messages from `id` are exactly `expected`, all in one queue. */
  ghost predicate Sole(queues: multiset<seq<Message>>, id: U16, expected: seq<Message>) {
    if expected == [] then forall q :: q in queues ==> From(q, id) == []
    else exists q :: SoleIn(queues, id, expected, q)
  }

  ghost predicate SoleIn(queues: multiset<seq<Message>>, id: U16, expected: seq<Message>, q: seq<Message>) {
    && queues[q] == 1 && From(q, id) == expected
    && forall q' :: q' in queues && q' != q ==> From(q', id) == []
  }

  predicate Tagged(messages: seq<Message>, id: U16) {
    forall i :: 0 <= i < |messages| ==> messages[i].server == id
  }

  lemma {:induction false} FromConcat(a: seq<Message>, b: seq<Message>, id: U16)
    ensures From(a + b, id) == From(a, id) + From(b, id)
  {
    if a == [] {
      assert a + b == b;
    } else {
      FromConcat(a[1..], b, id);
      assert (a + b)[1..] == a[1..] + b;
      var here := if a[0].server == id then [a[0]] else [];
      assert From(a + b, id) == here + (From(a[1..], id) + From(b, id));
      assert here + (From(a[1..], id) + From(b, id)) == (here + From(a[1..], id)) + From(b, id);
    }
  }

  lemma {:induction false} FromTagged(messages: seq<Message>, tag: U16, id: U16)
    requires Tagged(messages, tag)
    ensures From(messages, id) == if id == tag then messages else []
  {
    if messages != [] {
      FromTagged(messages[1..], tag, id);
    }
  }

  /** Replacing one copy of `q` by something new. */
  lemma Replaced<T>(bag: multiset<T>, q: T, q': T)
    requires q in bag && q' !in bag
    ensures var bag' := bag - multiset{q} + multiset{q'};
            && bag'[q'] == 1 && bag'[q] == bag[q] - 1
            && (forall p :: p != q && p != q' ==> bag'[p] == bag[p])
            && (forall p :: p in bag' ==> p == q' || p in bag)
  {
  }

  /** Appending the messages of a server not heard of before puts them together in one queue ... */
  lemma SoleNew(queues: multiset<seq<Message>>, q: seq<Message>, messages: seq<Message>, tag: U16)
    requires q in queues && messages != [] && Tagged(messages, tag) && Sole(queues, tag, [])
    ensures q + messages !in queues
    ensures Sole(queues - multiset{q} + multiset{q + messages}, tag, messages)
  {
    FromConcat(q, messages, tag);
    FromTagged(messages, tag, tag);
    assert From(q + messages, tag) == messages;
    assert q + messages !in queues;
    Replaced(queues, q, q + messages);
    assert SoleIn(queues - multiset{q} + multiset{q + messages}, tag, messages, q + messages);
  }

  /** ... and does not disturb the messages of any other server. */
  lemma SoleOther(queues: multiset<seq<Message>>, q: seq<Message>, messages: seq<Message>, tag: U16, id: U16,
                  expected: seq<Message>)
    requires q in queues && q + messages !in queues && Tagged(messages, tag) && id != tag
    requires Sole(queues, id, expected)
    ensures Sole(queues - multiset{q} + multiset{q + messages}, id, expected)
  {
    var q', queues' := q + messages, queues - multiset{q} + multiset{q + messages};
    FromConcat(q, messages, id);
    FromTagged(messages, tag, id);
    assert From(q', id) == From(q, id);
    Replaced(queues, q, q');
    if expected != [] {
      var home :| SoleIn(queues, id, expected, home);
      assert SoleIn(queues', id, expected, if home == q then q' else home);
    }
  }

  lemma SoleStep(queues: multiset<seq<Message>>, q: seq<Message>, messages: seq<Message>, tag: U16, id: U16,
                 expected: seq<Message>)
    requires q in queues && Tagged(messages, tag) && Sole(queues, tag, [])
    requires Sole(queues, id, expected) && (id == tag ==> expected == [])
    ensures Sole(queues - multiset{q} + multiset{q + messages}, id, if id == tag then messages else expected)
  {
    if messages == [] {
      assert q + messages == q && queues - multiset{q} + multiset{q} == queues;
    } else {
      SoleNew(queues, q, messages, tag);
      if id != tag { SoleOther(queues, q, messages, tag, id, expected); }
    }
  }

  lemma {:induction false} FlattenNone(queues: seq<seq<Message>>, id: U16)
    requires forall i :: 0 <= i < |queues| ==> From(queues[i], id) == []
    ensures From(Flatten(queues), id) == []
  {
    if queues != [] {
      assert forall i :: 0 <= i < |queues[1..]| ==> queues[1..][i] == queues[i + 1];
      FlattenNone(queues[1..], id);
      FromConcat(queues[0], Flatten(queues[1..]), id);
    }
  }

  lemma {:induction false} FlattenOne(queues: seq<seq<Message>>, id: U16, at: nat)
    requires at < |queues| && forall i :: 0 <= i < |queues| && i != at ==> From(queues[i], id) == []
    ensures From(Flatten(queues), id) == From(queues[at], id)
  {
    var rest := queues[1..];
    assert forall i :: 0 <= i < |rest| ==> rest[i] == queues[i + 1];
    FromConcat(queues[0], Flatten(rest), id);
    if at == 0 {
      FlattenNone(rest, id);
    } else {
      FlattenOne(rest, id, at - 1);
    }
  }

  /** Draining the queues one after the other yields each server's messages in their own order. */
  lemma SoleFlatten(queues: seq<seq<Message>>, id: U16, expected: seq<Message>)
    requires Sole(multiset(queues), id, expected)
    ensures From(Flatten(queues), id) == expected
  {
    forall i | 0 <= i < |queues| ensures queues[i] in multiset(queues) {}
    if expected == [] {
      FlattenNone(queues, id);
    } else {
      var home :| SoleIn(multiset(queues), id, expected, home);
      assert home in queues;
      var at :| 0 <= at < |queues| && queues[at] == home;
      OnlyAt(queues, at);
      FlattenOne(queues, id, at);
    }
  }

  /** An element that occurs once occurs at one index. */
  lemma OnlyAt<T>(list: seq<T>, at: nat)
    requires at < |list| && multiset(list)[list[at]] == 1
    ensures forall i :: 0 <= i < |list| && i != at ==> list[i] != list[at]
  {
    var x := list[at];
    assert list == list[..at] + [x] + list[at + 1..];
    assert multiset(list) == multiset(list[..at]) + multiset{x} + multiset(list[at + 1..]);
    forall i | 0 <= i < |list| && i != at ensures list[i] != x {
      if i < at {
        assert list[i] in multiset(list[..at]);
      } else {
        assert list[i] in multiset(list[at + 1..]);
      }
    }
  }

  // ---- the invariant ----

  function AdvanceAll(servers: seq<Server>): seq<Server> {
    seq(|servers|, i requires 0 <= i < |servers| => Advance(servers[i]))
  }

  predicate DistinctIds(servers: seq<Server>) {
    forall i, j :: 0 <= i < j < |servers| ==> servers[i].id != servers[j].id
  }

  predicate AllTagged(servers: seq<Server>) {
    forall i :: 0 <= i < |servers| ==> Tagged(servers[i].pending, servers[i].id)
  }

  /** What has been received from server `id` when the servers in `log` have been received from. */
  function Expected(log: seq<Server>, id: U16): seq<Message> {
    if log == [] then []
    else if log[0].id == id then Taken(log[0])
    else Expected(log[1..], id)
  }

  /** Servers leave the queue in their original order, before any that was put back; and each one popped
      is either in the hands of a worker, not received from yet, or in the log. */
  predicate ServersInv(r: Round, all: seq<Server>) {
    && |r.workers| == |all| <= r.capacity
    && Count(r.workers, HasPopped) == r.popped
    && Balance(r.servers, all, r.popped, Sum(r.workers, ServerBefore), Sum(r.workers, ServerAfter), r.log)
  }

  predicate Balance(servers: seq<Server>, all: seq<Server>, popped: nat, before: multiset<Server>,
                    after: multiset<Server>, log: seq<Server>) {
    && popped <= |all| && |servers| >= |all| - popped && servers[..|all| - popped] == all[popped..]
    && before + multiset(log) == multiset(all[..popped])
    && after + multiset(servers[|all| - popped..]) == multiset(AdvanceAll(log))
  }

  predicate SuppliesInv(r: Round) {
    && |r.queues| + |Sum(r.workers, HeldQueue)| == r.capacity
    && r.buffers + Count(r.workers, HoldsBuffer) == r.capacity
    && r.dropped == 0 && r.missed == 0
  }

  function AllQueues(r: Round): multiset<seq<Message>> {
    multiset(r.queues) + Sum(r.workers, HeldQueue)
  }

  ghost predicate MessagesInv(r: Round) {
    forall id :: Sole(AllQueues(r), id, Expected(r.log, id))
  }

  ghost predicate Inv(r: Round, all: seq<Server>) {
    ServersInv(r, all) && SuppliesInv(r) && MessagesInv(r)
  }

  lemma BeginInv(all: seq<Server>, capacity: nat)
    requires |all| <= capacity
    ensures Inv(Begin(all, capacity), all)
  {
    var r := Begin(all, capacity);
    BeginServers(r, all);
    SumEmpty(r.workers, HeldQueue);
    CountBound(r.workers, HoldsBuffer);
    BeginMessages(r);
  }

  lemma BeginServers(r: Round, all: seq<Server>)
    requires r == Begin(all, r.capacity) && |all| <= r.capacity
    ensures ServersInv(r, all)
  {
    NothingHeld(r.workers, r.workers == Idle(|all|));
    BeginBags(all);
  }

  /** Workers that have not started or have finished hold no server. */
  lemma NothingHeld(workers: seq<Worker>, idle: bool)
    requires forall i :: 0 <= i < |workers| ==> if idle then workers[i].PopServer? else workers[i].Finished?
    ensures Sum(workers, ServerBefore) == multiset{} && Sum(workers, ServerAfter) == multiset{}
    ensures Count(workers, HasPopped) == if idle then 0 else |workers|
  {
    SumEmpty(workers, ServerBefore);
    SumEmpty(workers, ServerAfter);
    CountBound(workers, HasPopped);
  }

  lemma BeginBags(all: seq<Server>)
    ensures multiset(all[..0]) == multiset{} && multiset(all[|all|..]) == multiset{}
    ensures multiset(AdvanceAll([])) == multiset{} && all[0..] == all == all[..|all|]
  {
    assert all[..0] == [] && all[|all|..] == [] && AdvanceAll([]) == [];
  }

  lemma BeginMessages(r: Round)
    requires Sum(r.workers, HeldQueue) == multiset{} && r.log == []
    requires forall i :: 0 <= i < |r.queues| ==> r.queues[i] == []
    ensures MessagesInv(r)
  {
    forall id ensures Sole(AllQueues(r), id, []) {
      forall q | q in AllQueues(r) ensures From(q, id) == [] {
        assert q in r.queues;
      }
    }
  }

  // ---- each step keeps it ----

  /** A step that moves no server and changes no log. */
  predicate SameServers(r: Round, r': Round) {
    && |r'.workers| == |r.workers| && r'.capacity == r.capacity && r'.servers == r.servers
    && r'.log == r.log && r'.popped == r.popped
    && Sum(r'.workers, ServerBefore) == Sum(r.workers, ServerBefore)
    && Sum(r'.workers, ServerAfter) == Sum(r.workers, ServerAfter)
    && Count(r'.workers, HasPopped) == Count(r.workers, HasPopped)
  }

  lemma SameHands(r: Round, i: nat, w: Worker)
    requires i < |r.workers|
    requires ServerBefore(w) == ServerBefore(r.workers[i]) && ServerAfter(w) == ServerAfter(r.workers[i])
    requires HasPopped(w) == HasPopped(r.workers[i])
    ensures SameServers(r, r.(workers := r.workers[i := w]))
  {
    SumSame(r.workers, i, w, ServerBefore);
    SumSame(r.workers, i, w, ServerAfter);
    CountUpdate(r.workers, i, w, HasPopped);
  }

  /** A step that moves no queue and no buffer. */
  predicate SameSupplies(r: Round, r': Round) {
    && r'.capacity == r.capacity && r'.queues == r.queues && r'.buffers == r.buffers
    && r'.dropped == r.dropped && r'.missed == r.missed
    && Sum(r'.workers, HeldQueue) == Sum(r.workers, HeldQueue)
    && Count(r'.workers, HoldsBuffer) == Count(r.workers, HoldsBuffer)
  }

  lemma EmptyHands(r: Round, i: nat, w: Worker)
    requires i < |r.workers| && HeldQueue(w) == HeldQueue(r.workers[i]) && HoldsBuffer(w) == HoldsBuffer(r.workers[i])
    ensures SameSupplies(r, r.(workers := r.workers[i := w]))
  {
    SumSame(r.workers, i, w, HeldQueue);
    CountUpdate(r.workers, i, w, HoldsBuffer);
  }

  lemma PopServerKeeps(r: Round, i: nat, all: seq<Server>)
    requires Inv(r, all) && i < |r.workers| && r.workers[i].PopServer?
    ensures Inv(Step(r, i), all)
  {
    NextIsOriginal(r, i, all);
    EmptyHands(r, i, PopQueue(r.servers[0]));
    ServerTaken(r, i, all);
  }

  /** The worker finds the next server of the original order at the head of the queue. */
  lemma NextIsOriginal(r: Round, i: nat, all: seq<Server>)
    requires ServersInv(r, all) && i < |r.workers| && r.workers[i].PopServer?
    ensures r.popped < |all| && r.servers != [] && r.servers[0] == all[r.popped]
  {
    CountUpdate(r.workers, i, Signal, HasPopped);
    assert r.servers[..|all| - r.popped][0] == all[r.popped..][0];
  }

  lemma ServerTaken(r: Round, i: nat, all: seq<Server>)
    requires ServersInv(r, all) && i < |r.workers| && r.workers[i].PopServer?
    requires r.popped < |all| && r.servers != [] && r.servers[0] == all[r.popped]
    ensures ServersInv(Step(r, i), all)
  {
    var s := r.servers[0];
    SumGain(r.workers, i, PopQueue(s), ServerBefore);
    SumSame(r.workers, i, PopQueue(s), ServerAfter);
    CountUpdate(r.workers, i, PopQueue(s), HasPopped);
    BalanceTaken(r.servers, all, r.popped, Sum(r.workers, ServerBefore), Sum(r.workers, ServerAfter), r.log);
  }

  lemma BalanceTaken(servers: seq<Server>, all: seq<Server>, popped: nat, before: multiset<Server>,
                     after: multiset<Server>, log: seq<Server>)
    requires Balance(servers, all, popped, before, after, log) && popped < |all| && servers[0] == all[popped]
    ensures Balance(servers[1..], all, popped + 1, before + multiset{servers[0]}, after, log)
  {
    PoppedPrefix(servers, all, popped);
    assert (before + multiset{servers[0]}) + multiset(log) == (before + multiset(log)) + multiset{servers[0]};
  }

  /** Popping the head of the queue moves on to the next server of the original order. */
  lemma PoppedPrefix(servers: seq<Server>, all: seq<Server>, popped: nat)
    requires popped < |all| && |servers| >= |all| - popped && servers[..|all| - popped] == all[popped..]
    ensures servers[1..][..|all| - popped - 1] == all[popped + 1..]
    ensures servers[1..][|all| - popped - 1..] == servers[|all| - popped..]
    ensures multiset(all[..popped + 1]) == multiset(all[..popped]) + multiset{all[popped]}
  {
    assert servers[1..][..|all| - popped - 1] == servers[..|all| - popped][1..];
    assert all[popped..][1..] == all[popped + 1..];
    assert all[..popped + 1] == all[..popped] + [all[popped]];
  }

  /** A worker that holds no queue finds one; likewise for buffers. */
  lemma SuppliesLeft(r: Round, i: nat)
    requires SuppliesInv(r) && i < |r.workers| <= r.capacity
    ensures HeldQueue(r.workers[i]) == multiset{} ==> r.queues != []
    ensures !HoldsBuffer(r.workers[i]) ==> r.buffers > 0
  {
    if HeldQueue(r.workers[i]) == multiset{} { SumBound(r.workers, HeldQueue, i); }
    CountUpdate(r.workers, i, r.workers[i], HoldsBuffer);
  }

  lemma PopQueueKeeps(r: Round, i: nat, all: seq<Server>)
    requires Inv(r, all) && i < |r.workers| && r.workers[i].PopQueue?
    ensures Inv(Step(r, i), all)
  {
    SuppliesLeft(r, i);
    SameHands(r, i, PopBuffer(r.workers[i].server, r.queues[0]));
    QueueTaken(r, i);
  }

  lemma QueueTaken(r: Round, i: nat)
    requires SuppliesInv(r) && i < |r.workers| && r.workers[i].PopQueue? && r.queues != []
    ensures SuppliesInv(Step(r, i)) && AllQueues(Step(r, i)) == AllQueues(r)
  {
    var w := PopBuffer(r.workers[i].server, r.queues[0]);
    SumGain(r.workers, i, w, HeldQueue);
    CountUpdate(r.workers, i, w, HoldsBuffer);
    HeadTaken(r.queues, Sum(r.workers, HeldQueue));
  }

  lemma HeadTaken<T>(list: seq<T>, held: multiset<T>)
    requires list != []
    ensures multiset(list[1..]) + (held + multiset{list[0]}) == multiset(list) + held
    ensures |held + multiset{list[0]}| == |held| + 1
  {
    assert list == [list[0]] + list[1..];
  }

  lemma TailPut<T>(list: seq<T>, held: multiset<T>, all: multiset<T>, x: T)
    requires held + multiset{x} == all
    ensures multiset(list + [x]) + held == multiset(list) + all
    ensures |all| == |held| + 1
  {
  }

  lemma PopBufferKeeps(r: Round, i: nat, all: seq<Server>)
    requires Inv(r, all) && i < |r.workers| && r.workers[i].PopBuffer?
    ensures Inv(Step(r, i), all)
  {
    SuppliesLeft(r, i);
    var w := Receiving(r.workers[i].server, r.workers[i].queue);
    SameHands(r, i, w);
    SumSame(r.workers, i, w, HeldQueue);
    CountUpdate(r.workers, i, w, HoldsBuffer);
  }

  lemma PushBufferKeeps(r: Round, i: nat, all: seq<Server>)
    requires Inv(r, all) && i < |r.workers| && r.workers[i].PushBuffer?
    ensures Inv(Step(r, i), all)
  {
    var w := PushQueue(r.workers[i].server, r.workers[i].queue);
    SameHands(r, i, w);
    SumSame(r.workers, i, w, HeldQueue);
    CountUpdate(r.workers, i, w, HoldsBuffer);
  }

  lemma PushQueueKeeps(r: Round, i: nat, all: seq<Server>)
    requires Inv(r, all) && i < |r.workers| && r.workers[i].PushQueue?
    ensures Inv(Step(r, i), all)
  {
    SameHands(r, i, PushServer(r.workers[i].server));
    QueuePut(r, i);
  }

  lemma QueuePut(r: Round, i: nat)
    requires SuppliesInv(r) && i < |r.workers| && r.workers[i].PushQueue?
    ensures SuppliesInv(Step(r, i)) && AllQueues(Step(r, i)) == AllQueues(r)
  {
    var w, q := PushServer(r.workers[i].server), r.workers[i].queue;
    var held, held' := Sum(r.workers, HeldQueue), Sum(r.workers[i := w], HeldQueue);
    SumLose(r.workers, i, w, HeldQueue);
    CountUpdate(r.workers, i, w, HoldsBuffer);
    TailPut(r.queues, held', held, q);
    assert |r.queues| < r.capacity;
    assert Step(r, i) == r.(queues := r.queues + [q], workers := r.workers[i := w]);
  }

  lemma PushServerKeeps(r: Round, i: nat, all: seq<Server>)
    requires Inv(r, all) && i < |r.workers| && r.workers[i].PushServer?
    ensures Inv(Step(r, i), all)
  {
    EmptyHands(r, i, Signal);
    RoomForServer(r, i, all);
    ServerPut(r, i, all);
  }

  lemma ServerPut(r: Round, i: nat, all: seq<Server>)
    requires ServersInv(r, all) && i < |r.workers| && r.workers[i].PushServer? && |r.servers| < r.capacity
    ensures ServersInv(Step(r, i), all)
  {
    SumSame(r.workers, i, Signal, ServerBefore);
    SumLose(r.workers, i, Signal, ServerAfter);
    CountUpdate(r.workers, i, Signal, HasPopped);
    BalancePut(r.servers, all, r.popped, Sum(r.workers, ServerBefore), Sum(r.workers, ServerAfter),
      Sum(r.workers[i := Signal], ServerAfter), r.log, r.workers[i].server);
  }

  lemma BalancePut(servers: seq<Server>, all: seq<Server>, popped: nat, before: multiset<Server>,
                   after: multiset<Server>,
                   after': multiset<Server>, log: seq<Server>, s: Server)
    requires Balance(servers, all, popped, before, after, log) && after' + multiset{s} == after
    ensures Balance(servers + [s], all, popped, before, after', log)
  {
    var n := |all| - popped;
    PutBehind(servers, n, s);
    TailPut(servers[n..], after', after, s);
  }

  lemma PutBehind<T>(list: seq<T>, n: nat, x: T)
    requires n <= |list|
    ensures (list + [x])[..n] == list[..n] && (list + [x])[n..] == list[n..] + [x]
  {
  }

  /** While a worker holds a server the queue of servers is not full. */
  lemma RoomForServer(r: Round, i: nat, all: seq<Server>)
    requires ServersInv(r, all) && i < |r.workers| && r.workers[i].PushServer?
    ensures |r.servers| < r.capacity
  {
    SumLose(r.workers, i, Signal, ServerAfter);
    var put := r.servers[|all| - r.popped..];
    assert |Sum(r.workers, ServerAfter)| >= 1;
    assert |Sum(r.workers, ServerAfter)| + |multiset(put)| == |multiset(AdvanceAll(r.log))|;
    assert |Sum(r.workers, ServerBefore)| + |multiset(r.log)| == |multiset(all[..r.popped])|;
  }

  lemma SignalKeeps(r: Round, i: nat, all: seq<Server>)
    requires Inv(r, all) && i < |r.workers| && r.workers[i].Signal?
    ensures Inv(Step(r, i), all)
  {
    SameHands(r, i, Finished);
    EmptyHands(r, i, Finished);
  }

  // ---- receiving ----

  predicate InLog(log: seq<Server>, id: U16) {
    exists k :: 0 <= k < |log| && log[k].id == id
  }

  lemma {:induction false} ExpectedAppend(log: seq<Server>, s: Server, id: U16)
    requires !InLog(log, s.id)
    ensures Expected(log, s.id) == []
    ensures Expected(log + [s], id) == if id == s.id then Taken(s) else Expected(log, id)
  {
    if log == [] {
      assert (log + [s])[1..] == [];
    } else {
      assert log[0].id != s.id;
      forall k | 0 <= k < |log[1..]| ensures log[1..][k].id != s.id {
        assert log[1..][k] == log[k + 1];
      }
      ExpectedAppend(log[1..], s, id);
      assert (log + [s])[1..] == log[1..] + [s];
    }
  }

  /** With distinct ids no server occurs twice among the first `n`. */
  lemma {:induction false} AtMostOnce(all: seq<Server>, n: nat, s: Server)
    requires DistinctIds(all) && n <= |all|
    ensures multiset(all[..n])[s] <= 1
  {
    if n > 0 {
      AtMostOnce(all, n - 1, s);
      assert all[..n] == all[..n - 1] + [all[n - 1]];
      if all[n - 1] == s {
        assert forall k :: 0 <= k < n - 1 ==> all[..n - 1][k] == all[k];
        assert s !in all[..n - 1];
      }
    }
  }

  /** A server in the hands of a worker that has not received yet is not in the log. */
  lemma NotLogged(r: Round, i: nat, all: seq<Server>)
    requires ServersInv(r, all) && DistinctIds(all) && i < |r.workers| && r.workers[i].Receiving?
    ensures r.workers[i].server in all && !InLog(r.log, r.workers[i].server.id)
  {
    var s, bag := r.workers[i].server, multiset(all[..r.popped]);
    SumUpdate(r.workers, i, r.workers[i], ServerBefore);
    assert s in bag;
    assert s in all[..r.popped];
    AtMostOnce(all, r.popped, s);
    assert multiset(r.log)[s] == 0;
    forall k | 0 <= k < |r.log| ensures r.log[k].id != s.id {
      var t := r.log[k];
      assert t in multiset(r.log) && t in bag;
      assert t in all[..r.popped];
      if t.id == s.id {
        SameServer(all, r.popped, s, t);
      }
    }
  }

  lemma SameServer(all: seq<Server>, n: nat, s: Server, t: Server)
    requires DistinctIds(all) && n <= |all| && s in all[..n] && t in all[..n] && s.id == t.id
    ensures s == t
  {
    var i :| 0 <= i < n && all[i] == s;
    var j :| 0 <= j < n && all[j] == t;
    assert !(i < j) && !(j < i);
  }

  lemma ReceivedServers(r: Round, i: nat, all: seq<Server>)
    requires ServersInv(r, all) && i < |r.workers| && r.workers[i].Receiving?
    ensures ServersInv(Step(r, i), all)
  {
    var s := r.workers[i].server;
    var w := PushBuffer(Advance(s), r.workers[i].queue + Taken(s));
    SumLose(r.workers, i, w, ServerBefore);
    SumGain(r.workers, i, w, ServerAfter);
    CountUpdate(r.workers, i, w, HasPopped);
    BalanceLogged(r.servers, all, r.popped, Sum(r.workers, ServerBefore), Sum(r.workers[i := w], ServerBefore),
      Sum(r.workers, ServerAfter), r.log, s);
  }

  lemma BalanceLogged(servers: seq<Server>, all: seq<Server>, popped: nat, before: multiset<Server>,
                      before': multiset<Server>,
                      after: multiset<Server>, log: seq<Server>, s: Server)
    requires Balance(servers, all, popped, before, after, log) && before' + multiset{s} == before
    ensures Balance(servers, all, popped, before', after + multiset{Advance(s)}, log + [s])
  {
    assert AdvanceAll(log + [s]) == AdvanceAll(log) + [Advance(s)];
    Rebalanced(before', before, log, s);
    Rebalanced2(after, multiset(servers[|all| - popped..]), AdvanceAll(log), Advance(s));
  }

  lemma Rebalanced<T>(held': multiset<T>, held: multiset<T>, log: seq<T>, s: T)
    requires held' + multiset{s} == held
    ensures held' + multiset(log + [s]) == held + multiset(log)
  {
  }

  lemma Rebalanced2<T>(held: multiset<T>, put: multiset<T>, log: seq<T>, s: T)
    requires held + put == multiset(log)
    ensures (held + multiset{s}) + put == multiset(log + [s])
  {
  }

  lemma ReceivedSupplies(r: Round, i: nat)
    requires SuppliesInv(r) && i < |r.workers| && r.workers[i].Receiving?
    ensures SuppliesInv(Step(r, i))
    ensures var q, messages := r.workers[i].queue, Taken(r.workers[i].server);
            q in AllQueues(r) && AllQueues(Step(r, i)) == AllQueues(r) - multiset{q} + multiset{q + messages}
  {
    var s, q := r.workers[i].server, r.workers[i].queue;
    var w := PushBuffer(Advance(s), q + Taken(s));
    SumUpdate(r.workers, i, w, HeldQueue);
    CountUpdate(r.workers, i, w, HoldsBuffer);
    var held, held' := Sum(r.workers, HeldQueue), Sum(r.workers[i := w], HeldQueue);
    Swapped(multiset(r.queues), held, held', q, q + Taken(s));
  }

  lemma Swapped<T>(rest: multiset<T>, held: multiset<T>, held': multiset<T>, q: T, q': T)
    requires multiset{q} <= held && held' + multiset{q} == held + multiset{q'}
    ensures q in rest + held && rest + held' == rest + held - multiset{q} + multiset{q'}
    ensures |held'| == |held|
  {
    assert held' == (held' + multiset{q}) - multiset{q};
    assert held - multiset{q} + multiset{q'} == (held + multiset{q'}) - multiset{q};
    assert rest + held - multiset{q} == rest + (held - multiset{q});
    assert |held' + multiset{q}| == |held'| + 1 && |held + multiset{q'}| == |held| + 1;
  }

  lemma ReceivingKeeps(r: Round, i: nat, all: seq<Server>)
    requires Inv(r, all) && DistinctIds(all) && AllTagged(all) && i < |r.workers| && r.workers[i].Receiving?
    ensures Inv(Step(r, i), all)
  {
    ReceivedServers(r, i, all);
    ReceivedSupplies(r, i);
    NotLogged(r, i, all);
    ReceivedMessages(r, i, all);
  }

  lemma ReceivedMessages(r: Round, i: nat, all: seq<Server>)
    requires MessagesInv(r) && AllTagged(all) && i < |r.workers| && r.workers[i].Receiving?
    requires r.workers[i].server in all && !InLog(r.log, r.workers[i].server.id)
    requires var q, messages := r.workers[i].queue, Taken(r.workers[i].server);
             q in AllQueues(r) && AllQueues(Step(r, i)) == AllQueues(r) - multiset{q} + multiset{q + messages}
    ensures MessagesInv(Step(r, i))
  {
    var s, q := r.workers[i].server, r.workers[i].queue;
    ExpectedAppend(r.log, s, s.id);
    assert Sole(AllQueues(r), s.id, Expected(r.log, s.id));
    forall id ensures Sole(AllQueues(Step(r, i)), id, Expected(r.log + [s], id)) {
      ExpectedAppend(r.log, s, id);
      SoleStep(AllQueues(r), q, Taken(s), s.id, id, Expected(r.log, id));
    }
  }

  lemma StepKeeps(r: Round, i: nat, all: seq<Server>)
    requires Inv(r, all) && DistinctIds(all) && AllTagged(all) && i < |r.workers|
    ensures Inv(Step(r, i), all)
  {
    match r.workers[i] {
      case PopServer => PopServerKeeps(r, i, all);
      case PopQueue(_) => PopQueueKeeps(r, i, all);
      case PopBuffer(_, _) => PopBufferKeeps(r, i, all);
      case Receiving(_, _) => ReceivingKeeps(r, i, all);
      case PushBuffer(_, _) => PushBufferKeeps(r, i, all);
      case PushQueue(_, _) => PushQueueKeeps(r, i, all);
      case PushServer(_) => PushServerKeeps(r, i, all);
      case Signal => SignalKeeps(r, i, all);
      case Finished =>
    }
  }

  lemma {:induction false} RunKeeps(all: seq<Server>, capacity: nat, schedule: seq<nat>)
    requires |all| <= capacity && DistinctIds(all) && AllTagged(all)
    requires forall k :: 0 <= k < |schedule| ==> schedule[k] < |all|
    ensures Inv(Run(Begin(all, capacity), schedule), all)
  {
    if schedule == [] {
      BeginInv(all, capacity);
    } else {
      RunKeeps(all, capacity, schedule[..|schedule| - 1]);
      StepKeeps(Run(Begin(all, capacity), schedule[..|schedule| - 1]), schedule[|schedule| - 1], all);
    }
  }

  // ---- the end of a round ----

  /** Any two servers with the same id are the same. */
  predicate OnePerId(servers: seq<Server>) {
    forall i, j :: 0 <= i < |servers| && 0 <= j < |servers| && servers[i].id == servers[j].id ==>
      servers[i] == servers[j]
  }

  lemma {:induction false} ExpectedOf(servers: seq<Server>, id: U16)
    requires OnePerId(servers)
    ensures forall k :: 0 <= k < |servers| && servers[k].id == id ==> Expected(servers, id) == Taken(servers[k])
    ensures !InLog(servers, id) ==> Expected(servers, id) == []
  {
    if servers != [] {
      var rest := servers[1..];
      assert forall k :: 0 <= k < |rest| ==> rest[k] == servers[k + 1];
      ExpectedOf(rest, id);
      if servers[0].id != id {
        assert InLog(rest, id) ==> InLog(servers, id);
        forall k | 0 <= k < |servers| && servers[k].id == id ensures Expected(servers, id) == Taken(servers[k]) {
          assert rest[k - 1] == servers[k];
        }
      }
    }
  }

  lemma {:induction false} ToMapOf(servers: seq<Server>, id: U16)
    requires OnePerId(servers)
    ensures forall k :: 0 <= k < |servers| && servers[k].id == id ==>
            id in ToMap(servers) && ToMap(servers)[id] == servers[k]
    ensures !InLog(servers, id) ==> id !in ToMap(servers)
  {
    if servers != [] {
      var rest := servers[..|servers| - 1];
      assert forall k :: 0 <= k < |rest| ==> rest[k] == servers[k];
      ToMapOf(rest, id);
      if servers[|servers| - 1].id != id {
        assert InLog(rest, id) ==> InLog(servers, id);
      }
    }
  }

  /** Two lists with the same members expect and map the same. */
  lemma SameMembers(a: seq<Server>, b: seq<Server>)
    requires OnePerId(a) && forall s :: s in a <==> s in b
    ensures OnePerId(b) && ToMap(a) == ToMap(b) && forall id :: Expected(a, id) == Expected(b, id)
  {
    forall i, j | 0 <= i < |b| && 0 <= j < |b| && b[i].id == b[j].id ensures b[i] == b[j] {
      assert b[i] in a && b[j] in a;
    }
    forall id ensures Expected(a, id) == Expected(b, id)
      ensures id in ToMap(a) <==> id in ToMap(b)
      ensures id in ToMap(a) ==> id in ToMap(b) && ToMap(a)[id] == ToMap(b)[id] {
      MatchById(a, b, id);
    }
  }

  lemma SameIds(a: seq<Server>, b: seq<Server>, id: U16)
    requires forall s :: s in a ==> s in b
    ensures InLog(a, id) ==> InLog(b, id)
  {
    if InLog(a, id) {
      var k :| 0 <= k < |a| && a[k].id == id;
      assert a[k] in b;
    }
  }

  lemma MatchById(a: seq<Server>, b: seq<Server>, id: U16)
    requires OnePerId(a) && OnePerId(b) && forall s :: s in a <==> s in b
    ensures Expected(a, id) == Expected(b, id)
    ensures id in ToMap(a) <==> id in ToMap(b)
    ensures id in ToMap(a) ==> ToMap(a)[id] == ToMap(b)[id]
  {
    ExpectedOf(a, id);
    ExpectedOf(b, id);
    ToMapOf(a, id);
    ToMapOf(b, id);
    SameIds(b, a, id);
    if InLog(a, id) {
      var k :| 0 <= k < |a| && a[k].id == id;
      assert a[k] in b;
      var j :| 0 <= j < |b| && b[j] == a[k];
    }
  }

  lemma DistinctIsOnePerId(servers: seq<Server>)
    requires DistinctIds(servers)
    ensures OnePerId(servers) && OnePerId(AdvanceAll(servers))
  {
    forall i, j | 0 <= i < |servers| && 0 <= j < |servers| && servers[i].id == servers[j].id ensures i == j {
      assert !(i < j) && !(j < i);
    }
  }

  lemma AfterMembers(a: seq<Server>, b: seq<Server>)
    requires forall s :: s in a <==> s in b
    ensures forall t :: t in AdvanceAll(a) <==> t in AdvanceAll(b)
  {
    forall t ensures t in AdvanceAll(a) <==> t in AdvanceAll(b) {
      AfterMember(a, b, t);
      AfterMember(b, a, t);
    }
  }

  lemma AfterMember(a: seq<Server>, b: seq<Server>, t: Server)
    requires forall s :: s in a ==> s in b
    ensures t in AdvanceAll(a) ==> t in AdvanceAll(b)
  {
    if t in AdvanceAll(a) {
      var i :| 0 <= i < |a| && AdvanceAll(a)[i] == t;
      assert a[i] in b;
      var j :| 0 <= j < |b| && b[j] == a[i];
      assert AdvanceAll(b)[j] == t;
    }
  }

  lemma BagMembers<T>(a: seq<T>, b: seq<T>)
    requires multiset(a) == multiset(b)
    ensures forall x :: x in a <==> x in b
  {
    forall x ensures x in a <==> x in b {
      assert x in multiset(a) <==> x in a;
      assert x in multiset(b) <==> x in b;
    }
  }

  lemma CompleteServers(r: Round, all: seq<Server>)
    requires ServersInv(r, all) && Complete(r)
    ensures multiset(r.log) == multiset(all) && multiset(r.servers) == multiset(AdvanceAll(r.log))
  {
    NothingHeld(r.workers, false);
    assert all[..|all|] == all && r.servers[0..] == r.servers;
  }

  lemma CompleteSupplies(r: Round)
    requires SuppliesInv(r) && Complete(r)
    ensures |r.queues| == r.buffers == r.capacity && AllQueues(r) == multiset(r.queues)
  {
    SumEmpty(r.workers, HeldQueue);
    CountBound(r.workers, HoldsBuffer);
  }

  // ---- the countdown, and progress ----

  predicate Done(w: Worker) { w.Finished? }

  /** `wait` returns exactly when every worker is finished: each worker signals once. */
  lemma {:induction false} CountdownIsExact(all: seq<Server>, capacity: nat, schedule: seq<nat>)
    requires forall k :: 0 <= k < |schedule| ==> schedule[k] < |all|
    ensures var r := Run(Begin(all, capacity), schedule);
            r.pending + Count(r.workers, Done) == |all| && (r.pending == 0 <==> Complete(r))
  {
    var r := Run(Begin(all, capacity), schedule);
    if schedule == [] {
      CountBound(r.workers, Done);
    } else {
      var before, i := Run(Begin(all, capacity), schedule[..|schedule| - 1]), schedule[|schedule| - 1];
      CountdownIsExact(all, capacity, schedule[..|schedule| - 1]);
      StepSignals(before, i);
    }
    AllDone(r.workers);
  }

  lemma StepSignals(r: Round, i: nat)
    requires i < |r.workers| && r.pending + Count(r.workers, Done) == |r.workers|
    ensures Step(r, i).pending + Count(Step(r, i).workers, Done) == |r.workers|
  {
    var w := Step(r, i).workers[i];
    CountUpdate(r.workers, i, w, Done);
    StepChangesOne(r, i);
    assert w.Finished? <==> r.workers[i].Signal? || r.workers[i].Finished?;
  }

  lemma StepChangesOne(r: Round, i: nat)
    requires i < |r.workers|
    ensures Step(r, i).workers == r.workers[i := Step(r, i).workers[i]]
    ensures r.workers[i].Finished? || Stage(Step(r, i).workers[i]) > Stage(r.workers[i])
  {
  }

  lemma AllDone(workers: seq<Worker>)
    ensures Count(workers, Done) == |workers| <==> forall i :: 0 <= i < |workers| ==> workers[i].Finished?
  {
    CountBound(workers, Done);
    forall i | 0 <= i < |workers| && !workers[i].Finished? ensures Count(workers, Done) < |workers| {
      CountUpdate(workers, i, workers[i], Done);
    }
  }

  /** How many steps a worker that misses nothing has taken. */
  function Stage(w: Worker): nat {
    match w
    case PopServer => 0
    case PopQueue(_) => 1
    case PopBuffer(_, _) => 2
    case Receiving(_, _) => 3
    case PushBuffer(_, _) => 4
    case PushQueue(_, _) => 5
    case PushServer(_) => 6
    case Signal => 7
    case Finished => 8
  }

  function Turns(schedule: seq<nat>, i: nat): nat {
    if schedule == [] then 0
    else Turns(schedule[..|schedule| - 1], i) + if schedule[|schedule| - 1] == i then 1 else 0
  }

  lemma {:induction false} StageReached(r: Round, schedule: seq<nat>, i: nat)
    requires i < |r.workers| && forall k :: 0 <= k < |schedule| ==> schedule[k] < |r.workers|
    ensures Stage(Run(r, schedule).workers[i]) >= if Turns(schedule, i) < 8 then Turns(schedule, i) else 8
  {
    if schedule != [] {
      var before := schedule[..|schedule| - 1];
      StageReached(r, before, i);
      StepChangesOne(Run(r, before), schedule[|schedule| - 1]);
    }
  }

  /** No worker ever waits for another: eight turns finish it, whatever the others do. */
  lemma RoundFinishes(all: seq<Server>, capacity: nat, schedule: seq<nat>)
    requires forall k :: 0 <= k < |schedule| ==> schedule[k] < |all|
    requires forall i :: 0 <= i < |all| ==> Turns(schedule, i) >= 8
    ensures Run(Begin(all, capacity), schedule).pending == 0
  {
    CountdownIsExact(all, capacity, schedule);
    EightTurns(Begin(all, capacity), schedule);
  }

  lemma EightTurns(r: Round, schedule: seq<nat>)
    requires forall k :: 0 <= k < |schedule| ==> schedule[k] < |r.workers|
    requires forall i :: 0 <= i < |r.workers| ==> Turns(schedule, i) >= 8
    ensures Complete(Run(r, schedule))
  {
    forall i | 0 <= i < |r.workers| ensures Run(r, schedule).workers[i].Finished? {
      StageReached(r, schedule, i);
    }
  }

  /** The same by what each server was expected to give. */
  lemma {:induction false} RoundCollects(all: seq<Server>, capacity: nat, schedule: seq<nat>)
    requires |all| <= capacity && DistinctIds(all) && AllTagged(all)
    requires forall k :: 0 <= k < |schedule| ==> schedule[k] < |all|
    requires Run(Begin(all, capacity), schedule).pending == 0
    ensures var r := Run(Begin(all, capacity), schedule);
            && multiset(r.log) == multiset(all)
            && r.dropped == 0 && r.missed == 0 && |r.queues| == r.buffers == capacity
            && |r.servers| == |all| && ToMap(r.servers) == ToMap(AdvanceAll(all))
            && forall id :: From(Flatten(r.queues), id) == Expected(all, id)
  {
    var r := Run(Begin(all, capacity), schedule);
    RunKeeps(all, capacity, schedule);
    CountdownIsExact(all, capacity, schedule);
    CapacityKept(Begin(all, capacity), schedule);
    CompleteServers(r, all);
    assert |r.servers| == |multiset(r.servers)| == |r.log| == |multiset(r.log)| == |multiset(all)| == |all|;
    CompleteSupplies(r);
    PutBack(r, all);
    forall id ensures From(Flatten(r.queues), id) == Expected(all, id) {
      assert Sole(AllQueues(r), id, Expected(r.log, id));
      SoleFlatten(r.queues, id, Expected(r.log, id));
    }
  }

  /** Pool round conservation: for any number of servers up to the pool's capacity, however the workers
      interleave, once the countdown is over each server has been received from exactly once, no push
      and no pop has failed, all queues and buffers are back, and for each server the messages drained
      from the queues, in their order, followed by those still pending at the server put back, are what
      was pending before: up to the limit all of them have moved. */
  lemma {:induction false} RoundConserves(all: seq<Server>, capacity: nat, schedule: seq<nat>)
    requires |all| <= capacity && DistinctIds(all) && AllTagged(all)
    requires forall k :: 0 <= k < |schedule| ==> schedule[k] < |all|
    requires Run(Begin(all, capacity), schedule).pending == 0
    ensures var r := Run(Begin(all, capacity), schedule);
            && multiset(r.log) == multiset(all)
            && r.dropped == 0 && r.missed == 0 && |r.queues| == r.buffers == capacity && |r.servers| == |all|
            && AllReceived(all, ToMap(r.servers), Flatten(r.queues))
  {
    var r := Run(Begin(all, capacity), schedule);
    RoundCollects(all, capacity, schedule);
    DistinctIsOnePerId(all);
    SameIdsKept(all);
    forall k | 0 <= k < |all| ensures ServerReceived(all[k], ToMap(r.servers), Flatten(r.queues)) {
      ExpectedOf(all, all[k].id);
      ToMapOf(AdvanceAll(all), all[k].id);
      assert AdvanceAll(all)[k] == Advance(all[k]);
      TakenIsReceived(all[k]);
    }
    forall id | !InLog(all, id) ensures id !in ToMap(r.servers) && From(Flatten(r.queues), id) == [] {
      ExpectedOf(all, id);
      ToMapOf(AdvanceAll(all), id);
    }
  }

  /** The server is back in the map, and its messages are among `messages`. */
  predicate ServerReceived(s: Server, after: map<U16, Server>, messages: seq<Message>) {
    s.id in after && ReceivedFrom(s, after[s.id], From(messages, s.id))
  }

  /** Each server of the round is, and no other server or message has come in. */
  ghost predicate AllReceived(all: seq<Server>, after: map<U16, Server>, messages: seq<Message>) {
    && (forall k :: 0 <= k < |all| ==> ServerReceived(all[k], after, messages))
    && (forall id :: !InLog(all, id) ==> id !in after && From(messages, id) == [])
  }

  lemma SameIdsKept(all: seq<Server>)
    requires OnePerId(all)
    ensures OnePerId(AdvanceAll(all)) && forall id :: InLog(AdvanceAll(all), id) <==> InLog(all, id)
  {
    var after := AdvanceAll(all);
    assert forall k :: 0 <= k < |all| ==> after[k] == Advance(all[k]) && after[k].id == all[k].id;
    forall id ensures InLog(after, id) <==> InLog(all, id) {
      if InLog(all, id) {
        var k :| 0 <= k < |all| && all[k].id == id;
        assert after[k].id == id;
      }
    }
  }

  lemma PutBack(r: Round, all: seq<Server>)
    requires DistinctIds(all) && multiset(r.log) == multiset(all) && multiset(r.servers) == multiset(AdvanceAll(r.log))
    ensures ToMap(r.servers) == ToMap(AdvanceAll(all))
    ensures forall id :: Expected(all, id) == Expected(r.log, id)
  {
    DistinctIsOnePerId(all);
    BagMembers(all, r.log);
    SameMembers(all, r.log);
    AfterMembers(all, r.log);
    BagMembers(r.servers, AdvanceAll(r.log));
    SameMembers(AdvanceAll(all), r.servers);
  }

  lemma {:induction false} CapacityKept(r: Round, schedule: seq<nat>)
    requires forall k :: 0 <= k < |schedule| ==> schedule[k] < |r.workers|
    ensures Run(r, schedule).capacity == r.capacity
  {
    if schedule != [] {
      CapacityKept(r, schedule[..|schedule| - 1]);
    }
  }
}
