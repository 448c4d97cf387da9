/** Identities, connections and channels of a server (src/tachyon/connection_impl.rs and the
    connection parts of src/tachyon.rs).  Of a channel only its key is recorded here. */
module Identities {
  import opened Sequence
  import opened IntBuffers
  import opened Headers

  datatype Identity = Identity(id: U32, session: U32, linked: U32)

  const NO_IDENTITY := Identity(0, 0, 0)

  datatype Connection = Connection(address: NetworkAddress, identity: Identity)

  type ChannelKey = (NetworkAddress, Byte)

  datatype Registry = Registry(
    channelIds: set<Byte>,                          // configured channels
    identities: map<U32, U32>,                      // registered session of each identity
    connections: map<NetworkAddress, Connection>,
    addressOf: map<U32, NetworkAddress>,            // identity_to_address_map
    channels: set<ChannelKey>)

  function Fresh(channelIds: set<Byte>): Registry {
    Registry(channelIds, map[], map[], map[], {})
  }

  // ---- operations ----

  function KeysOf(addresses: set<NetworkAddress>, channelIds: set<Byte>): set<ChannelKey> {
    set a, c | a in addresses && c in channelIds :: (a, c)
  }

  function CreateConnection(r: Registry, address: NetworkAddress, identity: Identity): Registry {
    r.(connections := r.connections[address := Connection(address, identity)],
       channels := r.channels + KeysOf({address}, r.channelIds))
  }

  function RemoveConnections(r: Registry, addresses: set<NetworkAddress>): Registry {
    r.(connections := r.connections - addresses, channels := r.channels - KeysOf(addresses, r.channelIds))
  }

  function AddressesOf(r: Registry, id: U32): set<NetworkAddress> {
    set a | a in r.connections && r.connections[a].identity.id == id
  }

  function RemoveByIdentity(r: Registry, id: U32): Registry {
    RemoveConnections(r, AddressesOf(r, id))
  }

  function SetIdentity(r: Registry, id: U32, session: U32): Registry {
    var r1 := RemoveByIdentity(r, id);
    r1.(identities := if session == 0 then r1.identities - {id} else r1.identities[id := session])
  }

  function IdentityAt(r: Registry, address: NetworkAddress): Identity {
    if address in r.connections then r.connections[address].identity else NO_IDENTITY
  }

  function TryLink(r: Registry, address: NetworkAddress, id: U32, session: U32): (Registry, bool) {
    if id !in r.identities || session != r.identities[id] then (r, false)
    else if IdentityAt(r, address).id == id && IdentityAt(r, address).session == session then (r, true)
    else
      var r1 := CreateConnection(RemoveByIdentity(r, id), address, Identity(id, session, 0));
      (r1.(addressOf := r1.addressOf[id := address]), true)
  }

  function TryUnlink(r: Registry, id: U32, session: U32): (Registry, bool) {
    if id !in r.identities || session != r.identities[id] then (r, false)
    else
      var r1 := RemoveByIdentity(r, id);
      (r1.(addressOf := r1.addressOf - {id}), true)
  }

  /** Without identities, a packet from a new address makes a connection. */
  function Touch(r: Registry, address: NetworkAddress): Registry {
    if address in r.connections then r else CreateConnection(r, address, NO_IDENTITY)
  }

  predicate IsLinked(r: Registry, address: NetworkAddress) {
    IdentityAt(r, address).id != 0
  }

  // ---- receiving a packet ----

  /** The fields of a received packet that decide where it goes. */
  datatype Packet = Packet(address: NetworkAddress, messageType: Byte, channel: Byte, id: U32, session: U32)

  /** `Dropped`: consumed by the gate.  `ToChannel`: processed by the channel with that key. */
  datatype Outcome = Dropped | Unreliable(address: NetworkAddress) | ToChannel(key: ChannelKey) | ChannelError | Error

  /** Where a packet that passed the gate goes. */
  function Dispatch(r: Registry, p: Packet): Outcome {
    if p.messageType == UNRELIABLE then Unreliable(p.address)
    else if (p.address, p.channel) !in r.channels then ChannelError
    else if p.messageType in {NONE_MESSAGE, NACK_MESSAGE, FRAGMENT, RELIABLE, RELIABLE_WITH_NACK}
    then ToChannel((p.address, p.channel))
    else Error
  }

  /** Where a packet from a connected address belongs: unreliable ones to the address, the five sequenced
      types to the channel if it is configured. */
  function Destination(channelIds: set<Byte>, p: Packet): Outcome {
    if p.messageType == UNRELIABLE then Unreliable(p.address)
    else if p.channel !in channelIds then ChannelError
    else if NONE_MESSAGE == p.messageType || NACK_MESSAGE == p.messageType || FRAGMENT == p.messageType ||
            RELIABLE == p.messageType || RELIABLE_WITH_NACK == p.messageType
    then ToChannel((p.address, p.channel))
    else Error
  }

  function Receive(r: Registry, useIdentity: bool, p: Packet): (Registry, Outcome) {
    if useIdentity then
      if p.messageType == LINK_IDENTITY then (TryLink(r, p.address, p.id, p.session).0, Dropped)
      else if p.messageType == UNLINK_IDENTITY then (TryUnlink(r, p.id, p.session).0, Dropped)
      else if !IsLinked(r, p.address) then (r, Dropped)
      else (r, Dispatch(r, p))
    else
      var r1 := Touch(r, p.address);
      (r1, Dispatch(r1, p))
  }

  // ---- runs ----

  datatype Event = Set(id: U32, session: U32) | Arrives(packet: Packet)

  function Step(r: Registry, useIdentity: bool, event: Event): Registry {
    match event
    case Set(id, session) => SetIdentity(r, id, session)
    case Arrives(packet) => Receive(r, useIdentity, packet).0
  }

  function Run(channelIds: set<Byte>, useIdentity: bool, events: seq<Event>): Registry {
    if events == [] then Fresh(channelIds)
    else Step(Run(channelIds, useIdentity, events[..|events| - 1]), useIdentity, events[|events| - 1])
  }

  /** The maps agree: a nonzero identity labels at most one connection, under the session registered
      for it and at the address recorded for it; and channels exist exactly for the connections and
      the configured ids. */
  ghost predicate Agree(r: Registry) {
    && (forall a :: a in r.connections ==> r.connections[a].address == a)
    && (forall a, b ::
          a in r.connections && b in r.connections && IdentityAt(r, a).id == IdentityAt(r, b).id != 0 ==> a == b)
    && (forall a :: a in r.connections && IdentityAt(r, a).id != 0 ==> Registered(r, a))
    && r.channels == KeysOf(r.connections.Keys, r.channelIds)
  }

  predicate Registered(r: Registry, a: NetworkAddress) {
    var identity := IdentityAt(r, a);
    && identity.id in r.identities && r.identities[identity.id] == identity.session
    && identity.id in r.addressOf && r.addressOf[identity.id] == a
  }

  lemma RemoveKeeps(r: Registry, id: U32)
    requires Agree(r)
    ensures var r' := RemoveByIdentity(r, id);
            Agree(r') && AddressesOf(r', id) == {} && forall a :: a in r'.connections ==>
              IdentityAt(r', a) == IdentityAt(r, a)
  {
    var r' := RemoveByIdentity(r, id);
    assert forall a :: a in r'.connections <==> a in r.connections && IdentityAt(r, a).id != id;
    assert forall a :: a in r'.connections && Registered(r, a) ==> Registered(r', a);
  }

  lemma CreateKeeps(r: Registry, address: NetworkAddress, identity: Identity, addressOf: map<U32, NetworkAddress>)
    requires Agree(r)
    requires identity.id != 0 ==>
               && AddressesOf(r, identity.id) == {}
               && identity.id in r.identities && r.identities[identity.id] == identity.session
    requires addressOf == r.addressOf[identity.id := address] || (identity.id == 0 && addressOf == r.addressOf)
    ensures Agree(CreateConnection(r, address, identity).(addressOf := addressOf))
  {
    var r' := CreateConnection(r, address, identity).(addressOf := addressOf);
    assert r'.connections.Keys == r.connections.Keys + {address};
    forall a | a in r'.connections && IdentityAt(r', a).id != 0 ensures Registered(r', a) {
      CreateRegistered(r, address, identity, addressOf, a);
    }
    forall a, b | a in r'.connections && b in r'.connections && IdentityAt(r', a).id == IdentityAt(r', b).id != 0
      ensures a == b {
      assert a !in AddressesOf(r, identity.id) && b !in AddressesOf(r, identity.id);
    }
  }

  lemma CreateRegistered(r: Registry, address: NetworkAddress, identity: Identity, addressOf: map<U32, NetworkAddress>,
                         a: NetworkAddress)
    requires forall b :: b in r.connections && IdentityAt(r, b).id != 0 ==> Registered(r, b)
    requires identity.id != 0 ==>
               && AddressesOf(r, identity.id) == {}
               && identity.id in r.identities && r.identities[identity.id] == identity.session
    requires addressOf == r.addressOf[identity.id := address] || (identity.id == 0 && addressOf == r.addressOf)
    requires var r' := CreateConnection(r, address, identity); a in r'.connections && IdentityAt(r', a).id != 0
    ensures Registered(CreateConnection(r, address, identity).(addressOf := addressOf), a)
  {
    if a != address {
      assert Registered(r, a);
      assert a !in AddressesOf(r, identity.id);
    }
  }

  lemma SetKeeps(r: Registry, id: U32, session: U32)
    requires Agree(r)
    ensures Agree(SetIdentity(r, id, session)) && AddressesOf(SetIdentity(r, id, session), id) == {}
  {
    RemoveKeeps(r, id);
    var r1, r' := RemoveByIdentity(r, id), SetIdentity(r, id, session);
    forall a | a in r'.connections && IdentityAt(r', a).id != 0 ensures Registered(r', a) {
      assert Registered(r1, a) && a !in AddressesOf(r1, id);
    }
  }

  lemma LinkKeeps(r: Registry, address: NetworkAddress, id: U32, session: U32)
    requires Agree(r)
    ensures Agree(TryLink(r, address, id, session).0)
  {
    RemoveKeeps(r, id);
    var r1 := RemoveByIdentity(r, id);
    if id in r.identities && session == r.identities[id] {
      CreateKeeps(r1, address, Identity(id, session, 0), r1.addressOf[id := address]);
    }
  }

  lemma UnlinkKeeps(r: Registry, id: U32, session: U32)
    requires Agree(r)
    ensures Agree(TryUnlink(r, id, session).0)
  {
    RemoveKeeps(r, id);
    var r1, r' := RemoveByIdentity(r, id), TryUnlink(r, id, session).0;
    if id in r.identities && session == r.identities[id] {
      forall a | a in r'.connections && IdentityAt(r', a).id != 0 ensures Registered(r', a) {
        assert Registered(r1, a) && a !in AddressesOf(r1, id);
      }
    }
  }

  lemma StepKeeps(r: Registry, useIdentity: bool, event: Event)
    requires Agree(r)
    ensures Agree(Step(r, useIdentity, event))
  {
    match event {
      case Set(id, session) => SetKeeps(r, id, session);
      case Arrives(p) =>
        LinkKeeps(r, p.address, p.id, p.session);
        UnlinkKeeps(r, p.id, p.session);
        CreateKeeps(r, p.address, NO_IDENTITY, r.addressOf);
    }
  }

  /** Identity maps agree after every run. */
  lemma {:induction false} MapsAgree(channelIds: set<Byte>, useIdentity: bool, events: seq<Event>)
    ensures Agree(Run(channelIds, useIdentity, events))
    ensures Run(channelIds, useIdentity, events).channelIds == channelIds
  {
    if events != [] {
      MapsAgree(channelIds, useIdentity, events[..|events| - 1]);
      StepKeeps(Run(channelIds, useIdentity, events[..|events| - 1]), useIdentity, events[|events| - 1]);
    }
  }

  /** The identity gate: on a server that uses identities, after any run, a packet that is not itself a
      link or unlink request gets past the gate exactly when its source address is at that moment
      linked to a nonzero identity; that identity's stored session is then the registered one. */
  lemma IdentityGate(channelIds: set<Byte>, events: seq<Event>, p: Packet)
    ensures var r := Run(channelIds, true, events);
            var (r', outcome) := Receive(r, true, p);
            && (outcome != Dropped <==>
                  p.messageType != LINK_IDENTITY && p.messageType != UNLINK_IDENTITY && IsLinked(r, p.address))
            && (outcome != Dropped ==>
                  && r' == r && p.address in r.connections
                  && var identity := r.connections[p.address].identity;
                     identity.id != 0 && identity.id in r.identities && r.identities[identity.id] == identity.session)
            && (outcome != Dropped ==> outcome == Destination(channelIds, p))
  {
    MapsAgree(channelIds, true, events);
    var r := Run(channelIds, true, events);
    if IsLinked(r, p.address) { assert Registered(r, p.address); }
  }

  // ---- sending ----

  const SEND_ERROR_SOCKET := 1
  const SEND_ERROR_CHANNEL := 2
  const SEND_ERROR_LENGTH := 5
  const SEND_ERROR_IDENTITY := 6

  const SEND_ERROR_UNKNOWN := 4

  /** A message goes to a channel, or unreliably to an address, or meets an error. */
  datatype SendResult = Sends(key: ChannelKey) | SendsUnreliable(address: NetworkAddress) | SendError(code: nat)

  /** `can_send`: a server always can, a client that uses identities only when linked. */
  predicate CanSend(isServer: bool, useIdentity: bool, linked: bool) {
    isServer || !useIdentity || linked
  }

  /** Which channel a reliable send goes to, or the error it meets first. */
  function SendTo(r: Registry, canSend: bool, bound: bool, channel: Byte, address: NetworkAddress,
                  length: nat): SendResult {
    if !canSend then SendError(SEND_ERROR_IDENTITY)
    else if length == 0 then SendError(SEND_ERROR_LENGTH)
    else if channel == 0 then SendError(SEND_ERROR_CHANNEL)
    else if !bound then SendError(SEND_ERROR_SOCKET)
    else if (address, channel) !in r.channels then SendError(SEND_ERROR_CHANNEL)
    else Sends((address, channel))
  }

  /** After any run: a reliable message reaches exactly the addresses connected at that moment, on the
      configured channels other than 0, if it is not empty, the socket is bound, and the sender is not a client
      that still has to link its identity.  Otherwise the first of these that fails is reported. */
  lemma {:induction false} SendReaches(channelIds: set<Byte>, isServer: bool, useIdentity: bool, linked: bool,
                                       bound: bool, events: seq<Event>, channel: Byte, address: NetworkAddress,
                                       length: nat)
    ensures var r := Run(channelIds, useIdentity, events);
            var sent := SendTo(r, CanSend(isServer, useIdentity, linked), bound, channel, address, length);
            var refused := !isServer && useIdentity && !linked;
            var reaches := channel != 0 && channel in channelIds && address in r.connections;
            && (sent == Sends((address, channel)) <==> !refused && length > 0 && bound && reaches)
            && (sent == SendError(SEND_ERROR_IDENTITY) <==> refused)
            && (sent == SendError(SEND_ERROR_LENGTH) <==> !refused && length == 0)
            && (sent == SendError(SEND_ERROR_SOCKET) <==> !refused && length > 0 && channel != 0 && !bound)
            && (sent == SendError(SEND_ERROR_CHANNEL) <==>
                  !refused && length > 0 && (channel == 0 || bound) && !reaches)
  {
    MapsAgree(channelIds, useIdentity, events);
    var r := Run(channelIds, useIdentity, events);
    assert (address, channel) in KeysOf(r.connections.Keys, channelIds) <==>
           address in r.connections && channel in channelIds;
  }

  /** `send_to_target`: an identity other than 0 stands for the address recorded for it. */
  function SendToTarget(r: Registry, canSend: bool, bound: bool, channel: Byte, id: U32, address: NetworkAddress,
                        length: nat): SendResult {
    if id > 0 && id !in r.addressOf then SendError(SEND_ERROR_IDENTITY)
    else
      var to := if id > 0 then r.addressOf[id] else address;
      if channel > 0 then SendTo(r, canSend, bound, channel, to, length)
      else if !canSend then SendError(SEND_ERROR_IDENTITY)
      else if !bound then SendError(SEND_ERROR_UNKNOWN)
      else SendsUnreliable(to)
  }

  /** Where a reliable message for an identity goes, after any run of a bound server: to the identity's own
      connection exactly when it has one; otherwise to the connection of another identity exactly when the
      address recorded for it is connected again; and otherwise nowhere. */
  lemma SendByIdentity(channelIds: set<Byte>, useIdentity: bool, events: seq<Event>, channel: Byte, id: U32,
                       address: NetworkAddress, length: nat)
    requires id != 0 && channel != 0 && channel in channelIds && length > 0
    ensures var r := Run(channelIds, useIdentity, events);
            var sent := SendToTarget(r, true, true, channel, id, address, length);
            var recorded := id in r.addressOf && r.addressOf[id] in r.connections;
            && (sent.Sends? <==> recorded) && (sent.Sends? ==> sent.key == (r.addressOf[id], channel))
            && (sent.Sends? && IdentityAt(r, sent.key.0).id == id <==> AddressesOf(r, id) != {})
            && (sent.Sends? && IdentityAt(r, sent.key.0).id != id <==> AddressesOf(r, id) == {} && recorded)
  {
    var r := Run(channelIds, useIdentity, events);
    if id in r.addressOf {
      SendReaches(channelIds, true, useIdentity, true, true, events, channel, r.addressOf[id], length);
    }
    AddressIsLive(channelIds, useIdentity, events, id);
  }

  /** Where an unreliable message goes, which is one on channel 0: without an identity to the address given;
      for an identity to the address recorded for it, connected or not, which is its own connection exactly
      when it has one. */
  lemma {:induction false} SendUnreliable(channelIds: set<Byte>, useIdentity: bool, events: seq<Event>, canSend: bool,
                                          bound: bool, id: U32, address: NetworkAddress, length: nat)
    ensures var r := Run(channelIds, useIdentity, events);
            var sent := SendToTarget(r, canSend, bound, 0, id, address, length);
            var known := id == 0 || id in r.addressOf;
            && (sent.SendsUnreliable? <==> known && canSend && bound)
            && (sent.SendsUnreliable? ==> sent.address == if id == 0 then address else r.addressOf[id])
            && (sent == SendError(SEND_ERROR_IDENTITY) <==> !known || !canSend)
            && (sent == SendError(SEND_ERROR_UNKNOWN) <==> known && canSend && !bound)
            && (id != 0 && canSend && bound ==>
                  (sent.SendsUnreliable? && IdentityAt(r, sent.address).id == id <==> AddressesOf(r, id) != {}))
  {
    if id != 0 { AddressIsLive(channelIds, useIdentity, events, id); }
  }

  /** Setting an identity revokes it at once: no address that was linked to it passes the gate. */
  lemma SettingRevokes(channelIds: set<Byte>, events: seq<Event>, id: U32, session: U32, p: Packet)
    requires id != 0
    requires IdentityAt(Run(channelIds, true, events), p.address).id == id
    ensures Receive(SetIdentity(Run(channelIds, true, events), id, session), true, p).1 == Dropped
  {
    var r := Run(channelIds, true, events);
    assert p.address in AddressesOf(r, id);
  }

  /** After any run, the address recorded for a nonzero identity is its live connection exactly when it
      has one. */
  lemma AddressIsLive(channelIds: set<Byte>, useIdentity: bool, events: seq<Event>, id: U32)
    requires id != 0
    ensures var r := Run(channelIds, useIdentity, events);
            (id in r.addressOf && IdentityAt(r, r.addressOf[id]).id == id) <==> AddressesOf(r, id) != {}
  {
    MapsAgree(channelIds, useIdentity, events);
    var r := Run(channelIds, useIdentity, events);
    if id in r.addressOf && IdentityAt(r, r.addressOf[id]).id == id {
      assert r.addressOf[id] in AddressesOf(r, id);
    }
    if a :| a in AddressesOf(r, id) {
      assert Registered(r, a);
    }
  }

  /** A recorded address can outlive its connection: setting an identity again leaves it behind. */
  lemma StaleAddress(a: NetworkAddress)
    ensures var link := Arrives(Packet(a, LINK_IDENTITY, 0, 1, 10));
            var r := Run({}, true, [Set(1, 10), link, Set(1, 11)]);
            1 in r.addressOf && r.addressOf[1] == a && a !in r.connections
  {
    var link := Arrives(Packet(a, LINK_IDENTITY, 0, 1, 10));
    var events := [Set(1, 10), link, Set(1, 11)];
    assert events[..2] == [Set(1, 10), link] && events[..2][..1] == [Set(1, 10)] && [Set(1, 10)][..0] == [];
    var r1 := Run({}, true, [Set(1, 10)]);
    assert r1 == SetIdentity(Fresh({}), 1, 10);
    assert r1.identities == map[1 := 10];
    var r2 := Run({}, true, [Set(1, 10), link]);
    assert r2 == TryLink(r1, a, 1, 10).0;
    assert Run({}, true, events) == SetIdentity(r2, 1, 11);
    assert a in AddressesOf(r2, 1);
  }

  /** A message for one identity can go to another: address `a` is linked to identity 1 and then to 2, and
      the address recorded for 1 stays `a`. */
  lemma SentToAnotherIdentity(a: NetworkAddress, length: nat)
    requires length > 0
    ensures var link1 := Arrives(Packet(a, LINK_IDENTITY, 0, 1, 10));
            var link2 := Arrives(Packet(a, LINK_IDENTITY, 0, 2, 20));
            var r := Run({1}, true, [Set(1, 10), link1, Set(2, 20), link2]);
            && SendToTarget(r, true, true, 1, 1, a, length) == Sends((a, 1))
            && IdentityAt(r, a).id == 2 && AddressesOf(r, 1) == {}
  {
    var link1, link2 := Arrives(Packet(a, LINK_IDENTITY, 0, 1, 10)), Arrives(Packet(a, LINK_IDENTITY, 0, 2, 20));
    var none: seq<Event> := [];
    var e1 := none + [Set(1, 10)];
    var e2 := e1 + [link1];
    var e3 := e2 + [Set(2, 20)];
    var e4 := e3 + [link2];
    RunMore({1}, true, none, Set(1, 10));
    RunMore({1}, true, e1, link1);
    RunMore({1}, true, e2, Set(2, 20));
    RunMore({1}, true, e3, link2);
    SetEffect(Run({1}, true, none), 1, 10);
    LinkEffect(Run({1}, true, e1), a, 1, 10);
    SetEffect(Run({1}, true, e2), 2, 20);
    LinkEffect(Run({1}, true, e3), a, 2, 20);
    SendByIdentity({1}, true, e4, 1, 1, a, length);
    assert e4 == [Set(1, 10), link1, Set(2, 20), link2];
  }

  /** Setting an identity registers it and leaves the connections of other identities alone. */
  lemma SetEffect(r: Registry, id: U32, session: U32)
    requires session != 0
    ensures var r' := SetIdentity(r, id, session);
            && r'.identities == r.identities[id := session] && r'.addressOf == r.addressOf
            && forall a :: IdentityAt(r, a).id != id ==> IdentityAt(r', a) == IdentityAt(r, a)
  {
  }

  /** A link request with the right session links the address. */
  lemma LinkEffect(r: Registry, a: NetworkAddress, id: U32, session: U32)
    requires id in r.identities && r.identities[id] == session && id != 0 && IdentityAt(r, a).id != id
    ensures var r' := Receive(r, true, Packet(a, LINK_IDENTITY, 0, id, session)).0;
            && r'.identities == r.identities && r'.addressOf == r.addressOf[id := a]
            && a in r'.connections && IdentityAt(r', a).id == id
  {
  }

  lemma RunMore(channelIds: set<Byte>, useIdentity: bool, events: seq<Event>, event: Event)
    ensures Run(channelIds, useIdentity, events + [event])
         == Step(Run(channelIds, useIdentity, events), useIdentity, event)
  {
    assert (events + [event])[..|events|] == events;
  }

  // ---- the object ----

  class Tachyon {
    const channelIds: set<Byte>
    const useIdentity: bool
    var identities: map<U32, U32>
    var connections: map<NetworkAddress, Connection>
    var addressOf: map<U32, NetworkAddress>
    var channels: set<ChannelKey>

    ghost function Abs(): Registry
      reads this
    {
      Registry(channelIds, identities, connections, addressOf, channels)
    }

    constructor (channelIds: set<Byte>, useIdentity: bool)
      ensures Abs() == Fresh(channelIds) && this.useIdentity == useIdentity
    {
      this.channelIds, this.useIdentity := channelIds, useIdentity;
      identities, connections, addressOf, channels := map[], map[], map[], {};
    }

    method CreateConfiguredChannels(address: NetworkAddress)
      modifies this`channels
      ensures channels == old(channels) + KeysOf({address}, channelIds)
    {
      var rest := channelIds;
      while rest != {}
        invariant rest <= channelIds && channels == old(channels) + KeysOf({address}, channelIds - rest)
        decreases rest
      {
        var id :| id in rest;
        if (address, id) !in channels {
          channels := channels + {(address, id)};
        }
        rest := rest - {id};
      }
      assert channelIds - {} == channelIds;
    }

    method RemoveConfiguredChannels(address: NetworkAddress)
      modifies this`channels
      ensures channels == old(channels) - KeysOf({address}, channelIds)
    {
      var rest := channelIds;
      while rest != {}
        invariant rest <= channelIds && channels == old(channels) - KeysOf({address}, channelIds - rest)
        decreases rest
      {
        var id :| id in rest;
        channels := channels - {(address, id)};
        rest := rest - {id};
      }
      assert channelIds - {} == channelIds;
    }

    method AddConnection(address: NetworkAddress, identity: Identity)
      modifies this`connections, this`channels
      ensures Abs() == CreateConnection(old(Abs()), address, identity)
    {
      connections := connections[address := Connection(address, identity)];
      CreateConfiguredChannels(address);
    }

    method RemoveConnection(address: NetworkAddress)
      modifies this`connections, this`channels
      ensures Abs() == RemoveConnections(old(Abs()), {address})
    {
      connections := connections - {address};
      RemoveConfiguredChannels(address);
    }

    /** Collects the addresses linked to `id`, then removes them one by one. */
    method RemoveConnectionByIdentity(id: U32)
      modifies this`connections, this`channels
      ensures Abs() == RemoveByIdentity(old(Abs()), id)
    {
      var addresses := set a | a in connections && connections[a].identity.id == id;
      var rest := addresses;
      assert RemoveConnections(Abs(), {}) == Abs();
      while rest != {}
        invariant rest <= addresses && Abs() == RemoveConnections(old(Abs()), addresses - rest)
        decreases rest
      {
        var address :| address in rest;
        ghost var done := addresses - rest;
        RemoveConnection(address);
        RemovedAlso(old(Abs()), done, address);
        assert done + {address} == addresses - (rest - {address});
        rest := rest - {address};
      }
      assert addresses - {} == addresses;
    }

    method SetIdentityOf(id: U32, session: U32)
      modifies this
      ensures Abs() == SetIdentity(old(Abs()), id, session)
    {
      RemoveConnectionByIdentity(id);
      if session == 0 {
        identities := identities - {id};
      } else {
        identities := identities[id := session];
      }
    }

    method TryLinkIdentity(address: NetworkAddress, id: U32, session: U32) returns (linked: bool)
      modifies this
      ensures (Abs(), linked) == TryLink(old(Abs()), address, id, session)
    {
      if id in identities {
        var current := identities[id];
        if session != current {
          return false;
        }
        var identity := if address in connections then connections[address].identity else NO_IDENTITY;
        if identity.id == id && identity.session == current {
          return true;
        }
        RemoveConnectionByIdentity(id);
        AddConnection(address, Identity(id, session, 0));
        addressOf := addressOf[id := address];
        return true;
      }
      return false;
    }

    method TryUnlinkIdentity(id: U32, session: U32) returns (unlinked: bool)
      modifies this
      ensures (Abs(), unlinked) == TryUnlink(old(Abs()), id, session)
    {
      if id in identities {
        if session != identities[id] {
          return false;
        }
        RemoveConnectionByIdentity(id);
        addressOf := addressOf - {id};
        return true;
      }
      return false;
    }

    /** The tests of `send_reliable` before it hands the message to a channel. */
    method SendReliable(canSend: bool, bound: bool, channel: Byte, address: NetworkAddress, length: nat)
      returns (r: SendResult)
      ensures r == SendTo(Abs(), canSend, bound, channel, address, length)
    {
      if !canSend {
        return SendError(SEND_ERROR_IDENTITY);
      }
      if length == 0 {
        return SendError(SEND_ERROR_LENGTH);
      }
      if channel == 0 {
        return SendError(SEND_ERROR_CHANNEL);
      }
      if !bound {
        return SendError(SEND_ERROR_SOCKET);
      }
      if (address, channel) !in channels {
        return SendError(SEND_ERROR_CHANNEL);
      }
      return Sends((address, channel));
    }

    method SendToTargetOf(canSend: bool, bound: bool, channel: Byte, id: U32, address: NetworkAddress, length: nat)
      returns (r: SendResult)
      ensures r == SendToTarget(Abs(), canSend, bound, channel, id, address, length)
    {
      var to := address;
      if id > 0 {
        if id !in addressOf {
          return SendError(SEND_ERROR_IDENTITY);
        }
        to := addressOf[id];
      }
      if channel > 0 {
        r := SendReliable(canSend, bound, channel, to, length);
      } else if !canSend {
        r := SendError(SEND_ERROR_IDENTITY);
      } else if !bound {
        r := SendError(SEND_ERROR_UNKNOWN);
      } else {
        r := SendsUnreliable(to);
      }
    }

    method ReceiveFromSocket(p: Packet) returns (outcome: Outcome)
      modifies this
      ensures (Abs(), outcome) == Receive(old(Abs()), useIdentity, p)
    {
      if useIdentity {
        if p.messageType == LINK_IDENTITY {
          var _ := TryLinkIdentity(p.address, p.id, p.session);
          return Dropped;
        } else if p.messageType == UNLINK_IDENTITY {
          var _ := TryUnlinkIdentity(p.id, p.session);
          return Dropped;
        } else if p.address !in connections || connections[p.address].identity.id == 0 {
          return Dropped;
        }
      } else if p.address !in connections {
        AddConnection(p.address, NO_IDENTITY);
      }
      if p.messageType == UNRELIABLE {
        return Unreliable(p.address);
      }
      if (p.address, p.channel) !in channels {
        return ChannelError;
      }
      if p.messageType in {NONE_MESSAGE, NACK_MESSAGE, FRAGMENT, RELIABLE, RELIABLE_WITH_NACK} {
        return ToChannel((p.address, p.channel));
      }
      return Error;
    }
  }

  lemma RemovedAlso(r: Registry, done: set<NetworkAddress>, address: NetworkAddress)
    ensures RemoveConnections(RemoveConnections(r, done), {address}) == RemoveConnections(r, done + {address})
  {
    assert r.connections - done - {address} == r.connections - (done + {address});
    assert KeysOf(done + {address}, r.channelIds) == KeysOf(done, r.channelIds) + KeysOf({address}, r.channelIds);
  }
}
