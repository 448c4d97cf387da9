/** What a server's identities, connections and gate are after any run, in terms of the events of the run
    alone (src/tachyon.rs, src/tachyon/connection_impl.rs). */
module IdentityRuns {
  import opened Sequence
  import opened IntBuffers
  import opened Headers
  import opened Identities

  // ---- registered sessions ----

  predicate Sets(event: Event, id: U32) {
    event.Set? && event.id == id
  }

  /** The last event that sets `id` gives it `session`. */
  predicate LastSet(events: seq<Event>, i: int, id: U32, session: U32) {
    && 0 <= i < |events| && events[i] == Set(id, session)
    && forall j :: i < j < |events| ==> !Sets(events[j], id)
  }

  ghost predicate Registers(events: seq<Event>, id: U32, session: U32) {
    session != 0 && exists i :: LastSet(events, i, id, session)
  }

  predicate HasSession(r: Registry, id: U32, session: U32) {
    id in r.identities && r.identities[id] == session
  }

  lemma {:induction false} RegistersMore(events: seq<Event>, event: Event, id: U32, session: U32)
    ensures Registers(events + [event], id, session) <==>
            if Sets(event, id) then session != 0 && event.session == session else Registers(events, id, session)
  {
    var more := events + [event];
    if Sets(event, id) {
      assert more[|events|] == event;
      if session != 0 && event.session == session { assert LastSet(more, |events|, id, session); }
    } else {
      if i :| LastSet(events, i, id, session) { assert LastSet(more, i, id, session); }
      if i :| LastSet(more, i, id, session) {
        forall j | i < j < |events| ensures !Sets(events[j], id) { assert more[j] == events[j]; }
        assert LastSet(events, i, id, session);
      }
    }
  }

  lemma {:induction false} SessionsStep(r: Registry, useIdentity: bool, event: Event, id: U32, session: U32)
    ensures HasSession(Step(r, useIdentity, event), id, session) <==>
            if Sets(event, id) then session != 0 && event.session == session else HasSession(r, id, session)
  {
  }

  /** After every run, an identity is registered under the session it was last set to, unless that is 0. */
  lemma {:induction false} SessionIsLastSet(channelIds: set<Byte>, useIdentity: bool, events: seq<Event>, id: U32,
                                            session: U32)
    ensures HasSession(Run(channelIds, useIdentity, events), id, session) <==> Registers(events, id, session)
    decreases events
  {
    if events != [] {
      var before, event := events[..|events| - 1], events[|events| - 1];
      SessionIsLastSet(channelIds, useIdentity, before, id, session);
      SessionsStep(Run(channelIds, useIdentity, before), useIdentity, event, id, session);
      RegistersMore(before, event, id, session);
      assert before + [event] == events;
    }
  }

  // ---- link and unlink requests ----

  /** Apart from what concerns `id` and the address `except`, the connections and the recorded addresses are
      those of before; registered sessions are kept. */
  ghost predicate OthersKept(r: Registry, r': Registry, id: U32, except: set<NetworkAddress>) {
    && r'.identities == r.identities && r'.channels == KeysOf(r'.connections.Keys, r.channelIds)
    && (forall a :: a !in except ==> (a in r'.connections <==> a in r.connections && a !in AddressesOf(r, id)))
    && (forall a :: a in r'.connections && a !in except ==> r'.connections[a] == r.connections[a])
    && (forall other :: other != id ==> (other in r'.addressOf <==> other in r.addressOf))
    && (forall other :: other in r'.addressOf && other != id ==> r'.addressOf[other] == r.addressOf[other])
  }

  /** After every run, an unlink request is granted exactly when its session is the registered one.  Granted,
      it leaves no address linked to the identity or recorded for it and everything else as it was; refused,
      it changes nothing. */
  lemma {:induction false} UnlinkExactly(channelIds: set<Byte>, useIdentity: bool, events: seq<Event>, id: U32,
                                         session: U32)
    ensures var r := Run(channelIds, useIdentity, events);
            var (r', granted) := TryUnlink(r, id, session);
            && (granted <==> Registers(events, id, session)) && (!granted ==> r' == r)
            && (granted ==> AddressesOf(r', id) == {} && id !in r'.addressOf && OthersKept(r, r', id, {}))
  {
    var r := Run(channelIds, useIdentity, events);
    SessionIsLastSet(channelIds, useIdentity, events, id, session);
    MapsAgree(channelIds, useIdentity, events);
    UnlinkKeeps(r, id, session);
  }

  /** The same for a link request: granted, its address alone is linked to the identity and recorded for it. */
  lemma {:induction false} LinkExactly(channelIds: set<Byte>, useIdentity: bool, events: seq<Event>,
                                       address: NetworkAddress, id: U32, session: U32)
    ensures var r := Run(channelIds, useIdentity, events);
            var (r', granted) := TryLink(r, address, id, session);
            && (granted <==> Registers(events, id, session)) && (!granted ==> r' == r)
            && (granted && id != 0 ==>
                  && AddressesOf(r', id) == {address} && r'.connections[address].identity.session == session
                  && id in r'.addressOf && r'.addressOf[id] == address && OthersKept(r, r', id, {address}))
  {
    var r := Run(channelIds, useIdentity, events);
    SessionIsLastSet(channelIds, useIdentity, events, id, session);
    MapsAgree(channelIds, useIdentity, events);
    LinkKeeps(r, address, id, session);
    if HasSession(r, id, session) && id != 0 { LinkEffects(r, address, id, session); }
  }

  lemma {:induction false} LinkEffects(r: Registry, address: NetworkAddress, id: U32, session: U32)
    requires Agree(r) && HasSession(r, id, session) && id != 0 && Agree(TryLink(r, address, id, session).0)
    ensures var r' := TryLink(r, address, id, session).0;
            && AddressesOf(r', id) == {address} && r'.connections[address].identity.session == session
            && id in r'.addressOf && r'.addressOf[id] == address && OthersKept(r, r', id, {address})
  {
    var r' := TryLink(r, address, id, session).0;
    assert address in AddressesOf(r', id);
    assert Registered(r', address);
    forall a | a in AddressesOf(r', id) ensures a == address {
      assert IdentityAt(r', a).id == IdentityAt(r', address).id;
    }
    if r' == r {
      forall a | a != address ensures a !in AddressesOf(r, id) {}
    }
  }

  // ---- who is linked ----

  predicate LinkedTo(r: Registry, a: NetworkAddress, id: U32) {
    a in r.connections && r.connections[a].identity.id == id
  }

  /** After `before`, `event` links `a` to `id`: a link request from `a` with the registered session. */
  ghost predicate Links(before: seq<Event>, event: Event, a: NetworkAddress, id: U32) {
    && event.Arrives? && event.packet.messageType == LINK_IDENTITY
    && event.packet.address == a && event.packet.id == id && Registers(before, id, event.packet.session)
  }

  /** After `before`, `event` ends a link of `a` to `id`: `id` is set or unlinked, or linked from elsewhere, or
      `a` is linked to another identity. */
  ghost predicate Parts(before: seq<Event>, event: Event, a: NetworkAddress, id: U32) {
    match event
    case Set(other, _) => other == id
    case Arrives(p) =>
      && Registers(before, p.id, p.session)
      && (if p.messageType == UNLINK_IDENTITY then p.id == id
          else p.messageType == LINK_IDENTITY && (p.id == id) != (p.address == a))
  }

  /** Event `i` links `a` to `id`, and no later event ends that. */
  ghost predicate LinkedSince(events: seq<Event>, i: int, a: NetworkAddress, id: U32) {
    && 0 <= i < |events| && Links(events[..i], events[i], a, id)
    && forall j :: i < j < |events| ==> !Parts(events[..j], events[j], a, id)
  }

  lemma {:induction false} LinkedMore(events: seq<Event>, event: Event, a: NetworkAddress, id: U32)
    ensures (exists i :: LinkedSince(events + [event], i, a, id)) <==>
            Links(events, event, a, id) ||
            ((exists i :: LinkedSince(events, i, a, id)) && !Parts(events, event, a, id))
  {
    var more := events + [event];
    assert more[..|events|] == events && more[|events|] == event;
    assert forall j :: 0 <= j < |events| ==> more[..j] == events[..j] && more[j] == events[j];
    if Links(events, event, a, id) { assert LinkedSince(more, |events|, a, id); }
    if i :| LinkedSince(events, i, a, id) {
      if !Parts(events, event, a, id) { assert LinkedSince(more, i, a, id); }
    }
    if i :| LinkedSince(more, i, a, id) {
      if i < |events| { assert LinkedSince(events, i, a, id); }
    }
  }

  lemma {:induction false} LinkedStep(r: Registry, before: seq<Event>, event: Event, a: NetworkAddress, id: U32)
    requires Agree(r) && id != 0
    requires forall other, session :: HasSession(r, other, session) <==> Registers(before, other, session)
    ensures LinkedTo(Step(r, true, event), a, id) <==>
            Links(before, event, a, id) || (LinkedTo(r, a, id) && !Parts(before, event, a, id))
  {
    match event {
      case Set(other, session) =>
      case Arrives(p) =>
        assert HasSession(r, p.id, p.session) <==> Registers(before, p.id, p.session);
        if p.messageType == LINK_IDENTITY && HasSession(r, p.id, p.session) { AfterLink(r, p, a, id); }
    }
  }

  lemma {:induction false} AfterLink(r: Registry, p: Packet, a: NetworkAddress, id: U32)
    requires Agree(r) && id != 0 && HasSession(r, p.id, p.session)
    ensures LinkedTo(TryLink(r, p.address, p.id, p.session).0, a, id) <==>
            (p.address == a && p.id == id) || (LinkedTo(r, a, id) && (p.id == id) == (p.address == a))
  {
    if p.id == id { assert LinkedTo(r, a, id) && LinkedTo(r, p.address, id) ==> a == p.address; }
  }

  /** On a server that uses identities, after every run: an address is linked to an identity exactly when it
      asked to be with the session registered at that moment, and since then the identity was not set, nor
      unlinked or linked from elsewhere with the session then registered, nor the address linked to another. */
  lemma {:induction false} LinkedExactly(channelIds: set<Byte>, events: seq<Event>, a: NetworkAddress, id: U32)
    requires id != 0
    ensures LinkedTo(Run(channelIds, true, events), a, id) <==> exists i :: LinkedSince(events, i, a, id)
    decreases events
  {
    if events != [] {
      var before, event := events[..|events| - 1], events[|events| - 1];
      var r := Run(channelIds, true, before);
      LinkedExactly(channelIds, before, a, id);
      MapsAgree(channelIds, true, before);
      forall other, session ensures HasSession(r, other, session) <==> Registers(before, other, session) {
        SessionIsLastSet(channelIds, true, before, other, session);
      }
      LinkedStep(r, before, event, a, id);
      LinkedMore(before, event, a, id);
      assert before + [event] == events;
    }
  }

  /** So a packet that is no link or unlink request gets past the gate exactly when its source was linked and
      still is, and then goes where its type and channel say. */
  lemma {:induction false} GateExactly(channelIds: set<Byte>, events: seq<Event>, p: Packet)
    ensures var (r', outcome) := Receive(Run(channelIds, true, events), true, p);
            if p.messageType != LINK_IDENTITY && p.messageType != UNLINK_IDENTITY &&
               exists id, i :: id != 0 && LinkedSince(events, i, p.address, id)
            then outcome == Destination(channelIds, p) && r' == Run(channelIds, true, events)
            else outcome == Dropped
  {
    var r := Run(channelIds, true, events);
    IdentityGate(channelIds, events, p);
    if IsLinked(r, p.address) {
      LinkedExactly(channelIds, events, p.address, IdentityAt(r, p.address).id);
    }
    forall id, i | id != 0 && LinkedSince(events, i, p.address, id) ensures IsLinked(r, p.address) {
      LinkedExactly(channelIds, events, p.address, id);
    }
  }

  // ---- without identities ----

  /** Event `i` is a packet from `a`, and no later event sets identity 0. */
  predicate HeardSince(events: seq<Event>, i: int, a: NetworkAddress) {
    && 0 <= i < |events| && events[i].Arrives? && events[i].packet.address == a
    && forall j :: i < j < |events| ==> !Sets(events[j], 0)
  }

  lemma {:induction false} HeardMore(events: seq<Event>, event: Event, a: NetworkAddress)
    ensures (exists i :: HeardSince(events + [event], i, a)) <==>
            (event.Arrives? && event.packet.address == a) ||
            ((exists i :: HeardSince(events, i, a)) && !Sets(event, 0))
  {
    var more := events + [event];
    assert more[|events|] == event && forall j :: 0 <= j < |events| ==> more[j] == events[j];
    if event.Arrives? && event.packet.address == a { assert HeardSince(more, |events|, a); }
    if i :| HeardSince(events, i, a) {
      if !Sets(event, 0) { assert HeardSince(more, i, a); }
    }
    if i :| HeardSince(more, i, a) {
      if i < |events| { assert HeardSince(events, i, a); }
    }
  }

  /** No connection has an identity. */
  predicate Anonymous(r: Registry) {
    forall a :: a in r.connections ==> r.connections[a] == Connection(a, NO_IDENTITY)
  }

  lemma {:induction false} HeardStep(r: Registry, event: Event, a: NetworkAddress)
    requires Anonymous(r)
    ensures Anonymous(Step(r, false, event))
    ensures a in Step(r, false, event).connections <==>
            (event.Arrives? && event.packet.address == a) || (a in r.connections && !Sets(event, 0))
  {
  }

  lemma {:induction false} ConnectedAreHeard(channelIds: set<Byte>, events: seq<Event>, a: NetworkAddress)
    ensures Anonymous(Run(channelIds, false, events))
    ensures a in Run(channelIds, false, events).connections <==> exists i :: HeardSince(events, i, a)
    decreases events
  {
    if events != [] {
      var before, event := events[..|events| - 1], events[|events| - 1];
      ConnectedAreHeard(channelIds, before, a);
      HeardStep(Run(channelIds, false, before), event, a);
      HeardMore(before, event, a);
      assert before + [event] == events;
    }
  }

  /** On a server without identities, after every run: the connected addresses are exactly the sources of the
      packets that arrived and were not removed since by setting identity 0.  A further packet connects its
      source if need be, changes nothing else, and goes where its type and channel say. */
  lemma {:induction false} WithoutIdentities(channelIds: set<Byte>, events: seq<Event>, p: Packet)
    ensures var r := Run(channelIds, false, events);
            var (r', outcome) := Receive(r, false, p);
            && (forall a :: a in r.connections <==> exists i :: HeardSince(events, i, a))
            && (forall a :: a in r.connections ==> r.connections[a] == Connection(a, NO_IDENTITY))
            && r'.connections.Keys == r.connections.Keys + {p.address}
            && r'.identities == r.identities && r'.addressOf == r.addressOf
            && r'.channels == KeysOf(r'.connections.Keys, channelIds)
            && outcome == Destination(channelIds, p)
  {
    var r := Run(channelIds, false, events);
    forall a ensures a in r.connections <==> exists i :: HeardSince(events, i, a) {
      ConnectedAreHeard(channelIds, events, a);
    }
    ConnectedAreHeard(channelIds, events, p.address);
    MapsAgree(channelIds, false, events);
    StepKeeps(r, false, Arrives(p));
  }
}
