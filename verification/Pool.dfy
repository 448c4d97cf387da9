/** The pool itself (src/tachyon/pool.rs): handing the servers to the workers of a round and taking the
    results back. */
module Pools {
  import opened Sequence
  import opened SequenceBuffers
  import opened PoolRound
  import opened PoolProofs

  predicate KeyedById(servers: map<U16, Server>) {
    forall id :: id in servers ==> servers[id].id == id
  }

  function Emptied(queues: seq<seq<Message>>): seq<seq<Message>> {
    seq(|queues|, _ => [])
  }

  /** A round's shared state between rounds: every queue is there and empty, every buffer is there. */
  predicate AtRest(r: Round) {
    r.queues == seq(r.capacity, _ => []) && r.buffers == r.capacity && r.servers == []
  }

  /** `handed` is the servers of the map, each once, in some order. */
  predicate HandedOver(handed: seq<Server>, servers: map<U16, Server>) {
    DistinctIds(handed) && ToMap(handed) == servers && |handed| == |servers|
  }

  lemma ToMapConcat(a: seq<Server>, s: Server)
    ensures ToMap(a + [s]) == ToMap(a)[s.id := s]
  {
    assert (a + [s])[..|a|] == a;
  }

  lemma {:induction false} ToMapKeys(servers: seq<Server>, k: nat)
    requires k < |servers|
    ensures servers[k].id in ToMap(servers)
  {
    if k < |servers| - 1 {
      assert servers[..|servers| - 1][k] == servers[k];
      ToMapKeys(servers[..|servers| - 1], k);
    }
  }

  lemma ToMapLast(servers: seq<Server>, k: nat)
    requires k < |servers| && DistinctIds(servers)
    ensures servers[k].id in ToMap(servers) && ToMap(servers)[servers[k].id] == servers[k]
  {
    DistinctIsOnePerId(servers);
    ToMapOf(servers, servers[k].id);
  }

  /** Handing over one more server from the map. */
  lemma HandOver(handed: seq<Server>, rest: map<U16, Server>, all: map<U16, Server>, id: U16)
    requires DistinctIds(handed) && ToMap(handed) + rest == all && ToMap(handed).Keys !! rest.Keys
    requires id in rest && KeyedById(rest)
    ensures DistinctIds(handed + [rest[id]])
    ensures ToMap(handed + [rest[id]]) + (rest - {id}) == all
    ensures ToMap(handed + [rest[id]]).Keys !! (rest - {id}).Keys
  {
    var s := rest[id];
    ToMapConcat(handed, s);
    forall k | 0 <= k < |handed| ensures handed[k].id != id {
      ToMapKeys(handed, k);
    }
  }

  lemma {:induction false} FlattenAppend(queues: seq<seq<Message>>, q: seq<Message>)
    ensures Flatten(queues + [q]) == Flatten(queues) + q
  {
    if queues == [] {
      assert queues + [q] == [q] && Flatten([q]) == q + Flatten([]);
    } else {
      FlattenAppend(queues[1..], q);
      assert (queues + [q])[1..] == queues[1..] + [q];
      assert queues[0] + (Flatten(queues[1..]) + q) == (queues[0] + Flatten(queues[1..])) + q;
    }
  }

  /** A rotation that has moved `k` queues to the back, emptied. */
  lemma QueueMoved(queues: seq<seq<Message>>, k: nat)
    requires k < |queues|
    ensures var now := queues[k..] + seq(k, _ => []);
            now != [] && now[0] == queues[k] && now[1..] + [[]] == queues[k + 1..] + seq(k + 1, _ => [])
    ensures Flatten(queues[..k + 1]) == Flatten(queues[..k]) + queues[k]
  {
    assert queues[..k + 1] == queues[..k] + [queues[k]];
    FlattenAppend(queues[..k], queues[k]);
  }

  class Pool {
    const capacity: nat                // max_servers
    var servers: map<U16, Server>
    var shared: Round                  // the queues behind the Arcs, and the workers of the round
    var counting: bool                 // whether `counter` is Some
    var published: seq<Message>

    ghost predicate Valid()
      reads this
    {
      && KeyedById(servers) && shared.capacity == capacity
      && (if counting then servers == map[] else |servers| <= capacity && AtRest(shared))
    }

    constructor (maxServers: nat)
      ensures Valid() && !counting && servers == map[] && published == [] && capacity == maxServers
    {
      capacity := maxServers;
      servers := map[];
      shared := Begin([], maxServers);
      counting := false;
      published := [];
    }

    method TakePublished() returns (message: Option<Message>)
      modifies this`published
      ensures message.None? ==> published == old(published) == []
      ensures message.Some? ==> [message.value] + published == old(published)
    {
      message := None;
      if published != [] {
        message := Some(published[0]);
        published := published[1..];
      }
    }

    /** Drains the map into the shared queue, in whatever order the map yields, and spawns a worker for
        each server.  A call during a round finds the map empty and changes nothing. */
    method Receive() returns (started: bool)
      requires Valid()
      modifies this
      ensures Valid() && published == old(published) && counting == (old(counting) || started)
      ensures started == (old(servers) != map[])
      ensures started ==> servers == map[] && HandedOver(shared.servers, old(servers))
      ensures started ==> shared == Begin(shared.servers, capacity)
      ensures !started ==> servers == old(servers) && shared == old(shared)
    {
      var count := |servers|;
      if count == 0 {
        return false;
      }
      var handed := DrainServers();
      shared := shared.(servers := handed, workers := Idle(count), pending := count, log := [], popped := 0,
                        dropped := 0, missed := 0);
      counting := true;
      started := true;
    }

    method DrainServers() returns (handed: seq<Server>)
      requires KeyedById(servers) && |servers| <= capacity
      modifies this`servers
      ensures servers == map[] && HandedOver(handed, old(servers))
    {
      handed := [];
      while servers != map[]
        invariant KeyedById(servers) && |handed| + |servers| == |old(servers)|
        invariant DistinctIds(handed) && ToMap(handed) + servers == old(servers) && ToMap(handed).Keys !! servers.Keys
        decreases |servers|
      {
        var id :| id in servers;
        HandOver(handed, servers, old(servers), id);
        RemoveOne(servers, id);
        handed := Push(handed, capacity, servers[id]);
        servers := servers - {id};
      }
    }

    /** The workers run, interleaved as `schedule` says. */
    method Work(schedule: seq<nat>)
      requires forall k :: 0 <= k < |schedule| ==> schedule[k] < |shared.workers|
      modifies this`shared
      ensures shared == Run(old(shared), schedule)
    {
      var k := 0;
      while k < |schedule|
        invariant 0 <= k <= |schedule| && shared == Run(old(shared), schedule[..k])
      {
        assert schedule[..k + 1][..k] == schedule[..k];
        shared := Step(shared, schedule[k]);
        k := k + 1;
      }
      assert schedule[..k] == schedule;
    }

    /** Every queue is drained into `published` and put back. */
    method MoveReceivedToPublished() returns (count: nat)
      requires |shared.queues| <= shared.capacity
      modifies this`published, this`shared
      ensures published == old(published) + Flatten(old(shared.queues))
      ensures count == |Flatten(old(shared.queues))|
      ensures shared == old(shared).(queues := Emptied(old(shared.queues)))
    {
      count := 0;
      var n := |shared.queues|;
      ghost var queues, start := shared.queues, published;
      for k := 0 to n
        invariant published == start + Flatten(queues[..k]) && count == |Flatten(queues[..k])|
        invariant shared == old(shared).(queues := queues[k..] + seq(k, _ => []))
      {
        QueueMoved(queues, k);
        var queue := shared.queues[0];
        shared := shared.(queues := shared.queues[1..]);
        var moved := Drain(queue);
        count := count + moved;
        shared := shared.(queues := Push(shared.queues, shared.capacity, []));
      }
      assert queues[..n] == queues && queues[n..] == [];
    }

    method Drain(queue: seq<Message>) returns (moved: nat)
      modifies this`published
      ensures published == old(published) + queue && moved == |queue|
    {
      moved := 0;
      for k := 0 to |queue|
        invariant moved == k && published == old(published) + queue[..k]
      {
        published := published + [queue[k]];
        moved := moved + 1;
      }
    }

    /** After the countdown: messages are published and servers go back to the map. */
    method FinishReceive() returns (serverCount: nat, messageCount: nat)
      requires counting ==> shared.pending == 0 && |shared.queues| <= shared.capacity
      modifies this
      ensures !old(counting) ==> unchanged(this) && serverCount == messageCount == 0
      ensures old(counting) ==>
        && !counting && servers == old(servers) + ToMap(old(shared.servers))
        && published == old(published) + Flatten(old(shared.queues))
        && serverCount == |old(shared.servers)| && messageCount == |Flatten(old(shared.queues))|
        && shared == old(shared).(queues := Emptied(old(shared.queues)), servers := [])
    {
      serverCount, messageCount := 0, 0;
      if !counting {
        return;
      }
      messageCount := MoveReceivedToPublished();
      ghost var inUse, moved := shared.servers, shared;
      var n := |shared.servers|;
      for k := 0 to n
        invariant counting && serverCount == k && servers == old(servers) + ToMap(inUse[..k])
        invariant published == old(published) + Flatten(old(shared.queues))
        invariant shared == moved.(servers := inUse[k..])
      {
        var server := shared.servers[0];
        assert inUse[..k + 1] == inUse[..k] + [inUse[k]];
        ToMapConcat(inUse[..k], server);
        shared := shared.(servers := shared.servers[1..]);
        servers := servers[server.id := server];
        serverCount := serverCount + 1;
      }
      assert inUse[..n] == inUse && inUse[n..] == [];
      counting := false;
    }

    /** A whole round: whatever order the map is drained in and however the workers interleave, every
        server is back under its id, and `published` has gained, in that server's order, its oldest
        messages: all that were pending, or as many as the limit allows. */
    method ReceiveRound(schedule: seq<nat>) returns (serverCount: nat, messageCount: nat)
      requires Valid() && !counting
      requires forall id :: id in servers ==> Tagged(servers[id].pending, id)
      requires forall k :: 0 <= k < |schedule| ==> schedule[k] < |servers|
      requires forall i :: 0 <= i < |servers| ==> Turns(schedule, i) >= 8
      modifies this
      ensures Valid() && !counting
      ensures servers.Keys == old(servers.Keys) && serverCount == |servers|
      ensures |published| == |old(published)| + messageCount && published[..|old(published)|] == old(published)
      ensures forall id :: id in servers ==>
                var gained, before := From(published[|old(published)|..], id), old(servers)[id].pending;
                && servers[id].id == id && gained + servers[id].pending == before
                && |gained| == if |before| < RECEIVE_LIMIT then |before| else RECEIVE_LIMIT
      ensures forall id :: id in servers && |old(servers)[id].pending| <= RECEIVE_LIMIT ==> servers[id].pending == []
      ensures forall id :: id !in servers ==> From(published[|old(published)|..], id) == []
    {
      var started := Receive();
      if !started {
        assert published[|old(published)|..] == [];
        return 0, 0;
      }
      RunWorkers(old(servers), schedule);
      serverCount, messageCount := CollectRound(old(servers));
    }

    /** The workers of a round that was given the servers `given`. */
    method RunWorkers(ghost given: map<U16, Server>, schedule: seq<nat>)
      requires HandedOver(shared.servers, given) && |given| <= capacity && shared == Begin(shared.servers, capacity)
      requires forall id :: id in given ==> Tagged(given[id].pending, id)
      requires forall k :: 0 <= k < |schedule| ==> schedule[k] < |given|
      requires forall i :: 0 <= i < |given| ==> Turns(schedule, i) >= 8
      modifies this`shared
      ensures Outcome(shared, given, capacity)
    {
      WholeRound(shared.servers, given, capacity, schedule);
      Work(schedule);
    }

    /** `finish_receive` after such a round. */
    method CollectRound(ghost given: map<U16, Server>) returns (serverCount: nat, messageCount: nat)
      requires counting && servers == map[] && KeyedById(given) && Outcome(shared, given, capacity)
      requires |given| <= capacity
      modifies this
      ensures Valid() && !counting && serverCount == |servers|
      ensures |published| == |old(published)| + messageCount && published[..|old(published)|] == old(published)
      ensures Received(given, servers, published[|old(published)|..])
    {
      ghost var messages := Flatten(shared.queues);
      serverCount, messageCount := FinishReceive();
      NothingAdded(ToMap(old(shared).servers));
      assert published[|old(published)|..] == messages;
    }
  }

  lemma NothingAdded<K, V>(m: map<K, V>)
    ensures map[] + m == m
  {
  }

  /** What a round leaves behind, in terms of the servers it was given. */
  ghost predicate Outcome(r: Round, servers: map<U16, Server>, capacity: nat) {
    && r.pending == 0 && |r.queues| == r.buffers == r.capacity == capacity && |r.servers| == |servers|
    && Received(servers, ToMap(r.servers), Flatten(r.queues))
  }

  /** The servers are back in the map, each with its oldest messages moved to `messages`, which gained nothing
      from any other. */
  ghost predicate Received(servers: map<U16, Server>, after: map<U16, Server>, messages: seq<Message>) {
    && after.Keys == servers.Keys
    && (forall id :: id in servers ==> ReceivedFrom(servers[id], after[id], From(messages, id)))
    && (forall id :: id !in servers ==> From(messages, id) == [])
  }

  lemma WholeRound(all: seq<Server>, servers: map<U16, Server>, capacity: nat, schedule: seq<nat>)
    requires HandedOver(all, servers) && |servers| <= capacity
    requires forall id :: id in servers ==> Tagged(servers[id].pending, id)
    requires forall k :: 0 <= k < |schedule| ==> schedule[k] < |all|
    requires forall i :: 0 <= i < |all| ==> Turns(schedule, i) >= 8
    ensures Outcome(Run(Begin(all, capacity), schedule), servers, capacity)
  {
    HandedOverFacts(all, servers);
    RoundFinishes(all, capacity, schedule);
    RoundConserves(all, capacity, schedule);
    CapacityKept(Begin(all, capacity), schedule);
    var r := Run(Begin(all, capacity), schedule);
    ByKey(all, servers, ToMap(r.servers), Flatten(r.queues));
  }

  lemma RemoveOne<K, V>(m: map<K, V>, k: K)
    requires k in m
    ensures |m - {k}| == |m| - 1
  {
    assert (m - {k}).Keys == m.Keys - {k};
  }

  /** Servers handed over from a map can be looked up in it. */
  lemma HandedOverFacts(all: seq<Server>, servers: map<U16, Server>)
    requires HandedOver(all, servers)
    requires forall id :: id in servers ==> Tagged(servers[id].pending, id)
    ensures AllTagged(all)
  {
    forall k | 0 <= k < |all| ensures Tagged(all[k].pending, all[k].id) {
      ToMapLast(all, k);
    }
  }

  lemma ByKey(all: seq<Server>, servers: map<U16, Server>, after: map<U16, Server>, messages: seq<Message>)
    requires HandedOver(all, servers) && AllReceived(all, after, messages)
    ensures Received(servers, after, messages)
  {
    DistinctIsOnePerId(all);
    forall id ensures id in after <==> id in servers
      ensures id in servers ==> id in after && ReceivedFrom(servers[id], after[id], From(messages, id))
      ensures id !in servers ==> From(messages, id) == [] {
      ToMapOf(all, id);
      if InLog(all, id) {
        var k :| 0 <= k < |all| && all[k].id == id;
        assert ServerReceived(all[k], after, messages);
      }
    }
  }
}
