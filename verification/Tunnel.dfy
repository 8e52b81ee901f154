/** A tunnel between two hosts, MulticastForwarding/Tunnel.cpp: the exchange of ids and the forwarding of multicast
    packets over a connection that keeps messages whole and in order. OnDataArrive and any number of calls of
    forwardData run at the same time in an endpoint; an action is one access to what they share. */
module TunnelEndpoints {
  import opened Bytes

  const TUNNEL_VERSION: nat := 1
  const PF_INET: nat := 2
  const PF_INET6: nat := 23
  const PORTS: nat := 0x1_0000

  datatype Status = IDLE | CONNECT | HANDSHAKING | READY | ACTIVE | CLOSED | FAILOVER

  type Guid = nat

  datatype Address = Address(family: nat, bits: nat)
  const NO_ADDRESS: Address := Address(0, 0)

  /** The arguments of forwardData */
  datatype Packet = Packet(data: seq<Byte>, source: Address, sport: int, group: Address, gport: int)

  /** The arguments of OnFowardedData */
  datatype Delivery = Delivery(data: seq<Byte>, source: Address, sport: int, group: Address, gport: int)

  datatype SockAddr = SockAddr(family: nat, bits: nat, port: nat)

  /** A message is a GUID, which is shorter than a header, or a header and data. */
  datatype Message = Hello(id: Guid) | Data(version: nat, kind: nat, source: SockAddr, group: SockAddr, data: seq<Byte>)

  predicate Known(family: nat) {
    family == PF_INET || family == PF_INET6
  }

  /** The message that forwardData builds: of the addresses only the group is written, with 16 bits of port. */
  function Encode(p: Packet): Message {
    var group := if Known(p.group.family) then SockAddr(p.group.family, p.group.bits, p.gport % PORTS)
                 else SockAddr(p.group.family, 0, 0);
    Data(TUNNEL_VERSION, 0, SockAddr(0, 0, 0), group, p.data)
  }

  function AddressOf(a: SockAddr): Address {
    if Known(a.family) then Address(a.family, a.bits) else NO_ADDRESS
  }

  function PortOf(a: SockAddr): int {
    if Known(a.family) then a.port else 0
  }

  /** What OnDataArrive takes from a data message */
  function Decode(m: Message): Delivery
    requires m.Data?
  {
    Delivery(m.data, AddressOf(m.source), PortOf(m.source), AddressOf(m.group), PortOf(m.group))
  }

  /** What arrives of a packet: its data, and its group if that is an address of version 4 or 6 of IP, whose families are
      2 and 23; nothing of its source. */
  predicate Arrives(p: Packet, d: Delivery) {
    && d.data == p.data && d.source == Address(0, 0) && d.sport == 0
    && if p.group.family == 2 || p.group.family == 23 then d.group == p.group && d.gport == p.gport % 65536
       else d.group == Address(0, 0) && d.gport == 0
  }

  lemma PacketArrives(p: Packet)
    ensures Arrives(p, Decode(Encode(p)))
    ensures Encode(p).Data? && Encode(p).version == 1 && Encode(p).kind == 0
  {
  }

  /** OnDataArrive: outside it; the status was HANDSHAKING; the reply is sent; the event is to be set; the status
      was READY or ACTIVE */
  datatype Receiver = Free | Shaking(m: Message) | Confirming(m: Message) | Signalling | Opening(m: Message)

  /** A call of forwardData: waiting for the event, after the time is over, before the check, before send */
  datatype Thread = Waiting(p: Packet) | TimedOut | Checking(p: Packet) | Sending(p: Packet) | Done

  /** One round of OnFowardedData calls, and the conversations that are called */
  datatype Round = Round(delivery: Delivery, owners: seq<nat>)

  /** The last seven fields are history: OnConnected has set the status, OnConnected has returned, the own id was
      sent, a first message was taken, the peer's id was stored, data messages taken, packets sent. */
  datatype Endpoint = Endpoint(
    passive: bool, id: Guid, peerid: Guid, status: Status, ready: bool, owners: seq<nat>, fallback: Option<nat>,
    receiver: Receiver, threads: seq<Thread>, log: seq<Round>,
    started: bool, greeted: bool, hello: bool, heard: bool, confirmed: bool, taken: nat, sent: seq<Packet>)

  datatype Output = Output(endpoint: Endpoint, messages: seq<Message>)

  function Start(passive: bool, id: Guid, fallback: Option<nat>): Endpoint {
    Endpoint(passive, id, 0, IDLE, false, [], fallback, Free, [], [], false, false, false, false, false, 0, [])
  }

  /** OnConnected sets the status, and then a client sends its id. */
  function Connected(e: Endpoint, ok: bool): (o: Output)
    ensures o.endpoint.id == e.id
  {
    if !e.started then Output(e.(started := true, status := HANDSHAKING), [])
    else if !e.passive && !e.greeted then Output(e.(greeted := true, hello := ok), if ok then [Hello(e.id)] else [])
    else Output(e, [])
  }

  /** OnDataArrive reads the status and takes the message one way or the other. */
  function Arrive(e: Endpoint, m: Message): Endpoint
    requires e.receiver.Free?
  {
    var r := e.(heard := true, taken := e.taken + if e.heard then 1 else 0);
    if e.status == HANDSHAKING then r.(receiver := Shaking(m))
    else if e.status != READY && e.status != ACTIVE then r
    else if m.Hello? || m.version != TUNNEL_VERSION then r
    else r.(receiver := Opening(m))
  }

  /** The first 16 bytes of a message as a GUID; those of a data message are the version and zeros. */
  function AsGuid(m: Message): Guid {
    if m.Hello? then m.id else m.version
  }

  /** The rest of OnDataArrive */
  function Receive(e: Endpoint, ok: bool): (o: Output)
    ensures o.endpoint.id == e.id
  {
    match e.receiver
    case Free => Output(e, [])
    case Shaking(m) =>
      var r := e.(receiver := Confirming(m));
      if e.passive then Output(r.(hello := ok), if ok then [Hello(e.id)] else []) else Output(r, [])
    case Confirming(m) => Output(e.(peerid := AsGuid(m), status := READY, confirmed := true, receiver := Signalling), [])
    case Signalling => Output(e.(ready := !e.passive, receiver := Free), [])
    case Opening(m) =>
      if m.Hello? || m.kind != 0 then Output(e.(status := ACTIVE, receiver := Free), [])
      else
        var owners := if e.owners == [] && e.fallback.Some? then [e.fallback.value] else e.owners;
        Output(e.(status := ACTIVE, receiver := Free, owners := owners, log := e.log + [Round(Decode(m), owners)]), [])
  }

  /** The start of forwardData; a server has no event to wait for. */
  function Forward(e: Endpoint, p: Packet, timeout: int): Endpoint {
    var t := if e.status == HANDSHAKING && timeout > 0 && !e.passive then Waiting(p) else Checking(p);
    e.(threads := e.threads + [t])
  }

  /** The next step of a call of forwardData; expired says that the wait is over. */
  function Moved(e: Endpoint, t: Thread, expired: bool): Thread {
    match t
    case Waiting(p) => if e.ready then Checking(p) else if expired then TimedOut else t
    case Checking(p) => if e.status == READY || e.status == ACTIVE then Sending(p) else Done
    case _ => Done
  }

  /** The rest of forwardData: ok says that send succeeds. */
  function Step(e: Endpoint, i: nat, expired: bool, ok: bool): (o: Output)
    requires i < |e.threads|
    ensures o.endpoint.id == e.id
  {
    var t := e.threads[i];
    var r := e.(threads := e.threads[i := Moved(e, t, expired)], status := if t.TimedOut? then IDLE else e.status);
    if t.Sending? && ok then Output(r.(sent := e.sent + [t.p]), [Encode(t.p)]) else Output(r, [])
  }

  /** addOwner */
  function AddOwner(e: Endpoint, owner: nat): Endpoint {
    if owner in e.owners then e else e.(owners := e.owners + [owner])
  }
}

/** Two endpoints and the messages on their way, and what every run of them keeps. */
module TunnelRuns {
  import opened Bytes
  import opened TunnelEndpoints

  datatype World = World(client: Endpoint, server: Endpoint, up: seq<Message>, down: seq<Message>, lost: bool)

  datatype Action =
    | OnConnected(ok: bool)
    | OnDataArrive
    | Continue(ok: bool)
    | ForwardData(p: Packet, timeout: int)
    | ContinueForward(thread: nat, expired: bool, ok: bool)
    | Own(owner: nat)

  datatype Turn = Turn(atClient: bool, action: Action)

  function Begin(client: Guid, server: Guid, c: Option<nat>, s: Option<nat>): World {
    World(Start(false, client, c), Start(true, server, s), [], [], false)
  }

  /** An action of an endpoint, given the first message that is there for it */
  function Act(e: Endpoint, a: Action, arriving: seq<Message>): Output {
    match a
    case OnConnected(ok) => Connected(e, ok)
    case OnDataArrive =>
      if e.started && e.receiver.Free? && arriving != [] then Output(Arrive(e, arriving[0]), []) else Output(e, [])
    case Continue(ok) => Receive(e, ok)
    case ForwardData(p, timeout) => Output(Forward(e, p, timeout), [])
    case ContinueForward(i, expired, ok) => if i < |e.threads| then Step(e, i, expired, ok) else Output(e, [])
    case Own(owner) => Output(AddOwner(e, owner), [])
  }

  predicate Takes(e: Endpoint, a: Action, arriving: seq<Message>) {
    a.OnDataArrive? && e.started && e.receiver.Free? && arriving != []
  }

  /** Send has failed for the id of the server. */
  predicate Loses(e: Endpoint, a: Action) {
    a.Continue? && !a.ok && e.passive && e.receiver.Shaking?
  }

  function After(w: World, t: Turn): World {
    if t.atClient then
      var o := Act(w.client, t.action, w.down);
      World(o.endpoint, w.server, w.up + o.messages, if Takes(w.client, t.action, w.down) then w.down[1..] else w.down,
            w.lost || Loses(w.client, t.action))
    else
      var o := Act(w.server, t.action, w.up);
      World(w.client, o.endpoint, if Takes(w.server, t.action, w.up) then w.up[1..] else w.up, w.down + o.messages,
            w.lost || Loses(w.server, t.action))
  }

  function Trace(w: World, script: seq<Turn>): World {
    if script == [] then w else After(Trace(w, script[..|script| - 1]), script[|script| - 1])
  }

  function Encoded(ps: seq<Packet>): (r: seq<Message>)
    ensures |r| == |ps|
  {
    seq(|ps|, i requires 0 <= i < |ps| => Encode(ps[i]))
  }

  predicate Shaken(e: Endpoint) {
    e.receiver.Shaking? || e.receiver.Confirming?
  }

  /** What an endpoint keeps by itself: nothing is sent before the peer's id is known, and a status that lets data
      through belongs to that id. */
  ghost predicate Local(e: Endpoint, peer: Guid) {
    && (!e.started ==> e.status == IDLE && !e.heard && !e.hello)
    && (e.status == IDLE || e.status == HANDSHAKING || e.status == READY || e.status == ACTIVE)
    && (e.status == HANDSHAKING ==> !e.confirmed && (e.heard ==> Shaken(e)))
    && (e.confirmed ==> e.heard && e.hello && e.peerid == peer && !Shaken(e))
    && (Shaken(e) ==> e.heard && e.receiver.m == Hello(peer))
    && (e.receiver.Signalling? || e.receiver.Opening? ==> e.confirmed)
    && (e.status == READY || e.status == ACTIVE || e.ready || e.sent != [] ==> e.confirmed)
    && (forall t :: t in e.threads && t.Sending? ==> e.confirmed)
    && (if e.passive then e.hello ==> e.heard else e.hello ==> e.greeted)
    && (e.passive && Shaken(e) ==> (e.hello <==> e.receiver.Confirming?))
    && (!e.heard ==> e.taken == 0 && e.log == [])
  }

  /** Messages that one endpoint sent and the other has not taken */
  ghost predicate Channel(from: Endpoint, to: Endpoint, messages: seq<Message>) {
    if to.heard then
      from.hello && to.taken <= |from.sent| && messages == Encoded(from.sent[to.taken..])
    else
      messages == (if from.hello then [Hello(from.id)] else []) + Encoded(from.sent)
  }

  /** The rounds of deliveries are those of the packets sent first. */
  ghost predicate Delivered(from: Endpoint, to: Endpoint) {
    && |to.log| <= |from.sent|
    && forall i {:trigger to.log[i]} :: 0 <= i < |to.log| ==> Arrives(from.sent[i], to.log[i].delivery)
  }

  /** A message in hand is the next one to deliver; once one has been dropped, none is delivered again. */
  predicate Progress(from: Endpoint, to: Endpoint) {
    if to.receiver.Opening? then
      to.heard && to.taken == |to.log| + 1 && to.taken <= |from.sent| && to.receiver.m == Encode(from.sent[|to.log|])
    else
      |to.log| <= to.taken && (|to.log| < to.taken ==> to.status == IDLE && !Shaken(to) && !to.receiver.Signalling?)
  }

  ghost predicate Inv(w: World) {
    && !w.client.passive && w.server.passive
    && Local(w.client, w.server.id) && Local(w.server, w.client.id)
    && Channel(w.client, w.server, w.up) && Channel(w.server, w.client, w.down)
    && Delivered(w.client, w.server) && Delivered(w.server, w.client)
    && Progress(w.client, w.server) && Progress(w.server, w.client)
  }

  lemma BeginIsFine(client: Guid, server: Guid, c: Option<nat>, s: Option<nat>)
    ensures Inv(Begin(client, server, c, s))
  {
  }

  /** Everything from the side of one endpoint: e acts, f is the other one. */
  ghost predicate Both(e: Endpoint, f: Endpoint, arriving: seq<Message>, leaving: seq<Message>) {
    && e.passive != f.passive && Local(e, f.id) && Local(f, e.id)
    && Channel(f, e, arriving) && Channel(e, f, leaving)
    && Delivered(f, e) && Delivered(e, f) && Progress(f, e) && Progress(e, f)
  }

  lemma ConnectedKeeps(e: Endpoint, f: Endpoint, arriving: seq<Message>, leaving: seq<Message>, ok: bool)
    requires Both(e, f, arriving, leaving)
    ensures
      var o := Connected(e, ok);
      Both(o.endpoint, f, arriving, leaving + o.messages)
  {
    var o := Connected(e, ok);
    if e.started && !e.passive && !e.greeted {
      assert Encoded(e.sent) == [];
      assert leaving == [];
    }
  }

  /** The first message is the id, and the others are the data messages in order. */
  lemma FirstOf(f: Endpoint, e: Endpoint, arriving: seq<Message>)
    requires Channel(f, e, arriving) && arriving != [] && (f.sent != [] ==> f.hello)
    ensures !e.heard ==> f.hello && arriving[0] == Hello(f.id) && arriving[1..] == Encoded(f.sent)
    ensures e.heard ==> e.taken < |f.sent| && arriving[0] == Encode(f.sent[e.taken]) && arriving[1..] == Encoded(f.sent[e.taken + 1..])
  {
    if e.heard {
      assert f.sent[e.taken..][0] == f.sent[e.taken];
      assert f.sent[e.taken..][1..] == f.sent[e.taken + 1..];
      assert Encoded(f.sent[e.taken..])[1..] == Encoded(f.sent[e.taken..][1..]);
    } else {
      assert f.hello;
    }
  }

  lemma ArriveLocal(e: Endpoint, peer: Guid, m: Message)
    requires Local(e, peer) && e.started && e.receiver.Free? && (!e.heard ==> m == Hello(peer))
    ensures Local(Arrive(e, m), peer)
  {
  }

  lemma ArriveKeeps(e: Endpoint, f: Endpoint, arriving: seq<Message>, leaving: seq<Message>)
    requires Both(e, f, arriving, leaving) && e.started && e.receiver.Free? && arriving != []
    ensures Both(Arrive(e, arriving[0]), f, arriving[1..], leaving)
  {
    FirstOf(f, e, arriving);
    ArriveLocal(e, f.id, arriving[0]);
    if !e.heard {
      assert f.sent[0..] == f.sent;
    }
  }

  lemma OpenKeeps(e: Endpoint, f: Endpoint, arriving: seq<Message>, leaving: seq<Message>, ok: bool)
    requires Both(e, f, arriving, leaving) && e.receiver.Opening?
    ensures
      var o := Receive(e, ok);
      o.messages == [] && Both(o.endpoint, f, arriving, leaving)
  {
    PacketArrives(f.sent[|e.log|]);
  }

  lemma ReplyKeeps(e: Endpoint, f: Endpoint, arriving: seq<Message>, leaving: seq<Message>, ok: bool)
    requires Both(e, f, arriving, leaving) && e.receiver.Shaking? && !Loses(e, Continue(ok))
    ensures
      var o := Receive(e, ok);
      Both(o.endpoint, f, arriving, leaving + o.messages)
  {
    if e.passive {
      assert Encoded(e.sent) == [] && leaving == [];
    } else {
      assert leaving + [] == leaving;
    }
  }

  lemma ConfirmKeeps(e: Endpoint, f: Endpoint, arriving: seq<Message>, leaving: seq<Message>, ok: bool)
    requires Both(e, f, arriving, leaving) && !e.receiver.Opening? && !e.receiver.Shaking?
    ensures
      var o := Receive(e, ok);
      o.messages == [] && Both(o.endpoint, f, arriving, leaving)
  {
  }

  lemma ReceiveKeeps(e: Endpoint, f: Endpoint, arriving: seq<Message>, leaving: seq<Message>, ok: bool)
    requires Both(e, f, arriving, leaving) && !Loses(e, Continue(ok))
    ensures
      var o := Receive(e, ok);
      Both(o.endpoint, f, arriving, leaving + o.messages)
  {
    assert leaving + [] == leaving;
    match e.receiver
    case Shaking(m) => ReplyKeeps(e, f, arriving, leaving, ok);
    case Opening(m) => OpenKeeps(e, f, arriving, leaving, ok);
    case _ => ConfirmKeeps(e, f, arriving, leaving, ok);
  }

  lemma SendKeeps(e: Endpoint, f: Endpoint, arriving: seq<Message>, leaving: seq<Message>, i: nat)
    requires Both(e, f, arriving, leaving) && i < |e.threads| && e.threads[i].Sending?
    ensures Both(Step(e, i, true, true).endpoint, f, arriving, leaving + [Encode(e.threads[i].p)])
  {
    assert e.threads[i] in e.threads;
    var p := e.threads[i].p;
    SentIsAdded(e.sent, p, if f.heard then f.taken else 0);
    assert forall k :: 0 <= k < |e.sent| ==> (e.sent + [p])[k] == e.sent[k];
    ThreadsStay(e, f.id, i, Done);
  }

  /** A thread that is not about to send may replace another one. */
  lemma ThreadsStay(e: Endpoint, peer: Guid, i: nat, t: Thread)
    requires Local(e, peer) && i < |e.threads| && (t.Sending? ==> e.confirmed)
    ensures Local(e.(threads := e.threads[i := t]), peer)
  {
    forall u | u in e.threads[i := t] && u.Sending?
      ensures e.confirmed
    {
      assert u == t || u in e.threads;
    }
  }

  lemma ThreadKeeps(e: Endpoint, f: Endpoint, arriving: seq<Message>, leaving: seq<Message>, i: nat, t: Thread)
    requires Both(e, f, arriving, leaving) && i < |e.threads| && (t.Sending? ==> e.confirmed)
    ensures Both(e.(threads := e.threads[i := t]), f, arriving, leaving)
  {
    ThreadsStay(e, f.id, i, t);
  }

  /** The handshake has taken too long; nothing arrives or leaves any more. */
  lemma ExpiryKeeps(e: Endpoint, f: Endpoint, arriving: seq<Message>, leaving: seq<Message>)
    requires Both(e, f, arriving, leaving)
    ensures Both(e.(status := IDLE), f, arriving, leaving)
  {
  }

  /** A step that sends nothing moves its thread, and may set the status to IDLE. */
  lemma StepForm(e: Endpoint, i: nat, expired: bool, ok: bool) returns (t: Thread, idle: bool)
    requires i < |e.threads| && (e.threads[i].Sending? ==> !ok)
    ensures
      var o := Step(e, i, expired, ok);
      var r := e.(threads := e.threads[i := t]);
      o.messages == [] && o.endpoint == if idle then e.(threads := e.threads[i := t], status := IDLE) else r
    ensures t.Sending? ==> e.status == READY || e.status == ACTIVE
  {
    t := Moved(e, e.threads[i], expired);
    idle := e.threads[i].TimedOut?;
  }

  lemma WaitKeeps(e: Endpoint, f: Endpoint, arriving: seq<Message>, leaving: seq<Message>, i: nat, expired: bool, ok: bool)
    requires Both(e, f, arriving, leaving) && i < |e.threads| && (e.threads[i].Sending? ==> !ok)
    ensures
      var o := Step(e, i, expired, ok);
      o.messages == [] && Both(o.endpoint, f, arriving, leaving)
  {
    var t, idle := StepForm(e, i, expired, ok);
    ThreadKeeps(e, f, arriving, leaving, i, t);
    if idle {
      ExpiryKeeps(e.(threads := e.threads[i := t]), f, arriving, leaving);
    }
  }

  lemma StepKeeps(e: Endpoint, f: Endpoint, arriving: seq<Message>, leaving: seq<Message>, i: nat, expired: bool, ok: bool)
    requires Both(e, f, arriving, leaving) && i < |e.threads|
    ensures
      var o := Step(e, i, expired, ok);
      Both(o.endpoint, f, arriving, leaving + o.messages)
  {
    assert leaving + [] == leaving;
    if e.threads[i].Sending? && ok {
      SendKeeps(e, f, arriving, leaving, i);
    } else {
      WaitKeeps(e, f, arriving, leaving, i, expired, ok);
    }
  }

  lemma ForwardKeeps(e: Endpoint, f: Endpoint, arriving: seq<Message>, leaving: seq<Message>, p: Packet, timeout: int)
    requires Both(e, f, arriving, leaving)
    ensures Both(Forward(e, p, timeout), f, arriving, leaving)
  {
  }

  lemma OwnKeeps(e: Endpoint, f: Endpoint, arriving: seq<Message>, leaving: seq<Message>, owner: nat)
    requires Both(e, f, arriving, leaving)
    ensures Both(AddOwner(e, owner), f, arriving, leaving)
  {
  }

  lemma SentIsAdded(sent: seq<Packet>, p: Packet, k: nat)
    requires k <= |sent|
    ensures Encoded((sent + [p])[k..]) == Encoded(sent[k..]) + [Encode(p)]
    ensures Encoded(sent + [p]) == Encoded(sent) + [Encode(p)]
  {
    assert (sent + [p])[k..] == sent[k..] + [p];
  }

  lemma HearKeeps(e: Endpoint, f: Endpoint, arriving: seq<Message>, leaving: seq<Message>)
    requires Both(e, f, arriving, leaving)
    ensures
      var o := Act(e, OnDataArrive, arriving);
      Both(o.endpoint, f, if Takes(e, OnDataArrive, arriving) then arriving[1..] else arriving, leaving + o.messages)
  {
    assert leaving + [] == leaving;
    if Takes(e, OnDataArrive, arriving) {
      ArriveKeeps(e, f, arriving, leaving);
    }
  }

  lemma ContinueKeeps(
      e: Endpoint, f: Endpoint, arriving: seq<Message>, leaving: seq<Message>, i: nat, expired: bool, ok: bool)
    requires Both(e, f, arriving, leaving)
    ensures
      var o := Act(e, ContinueForward(i, expired, ok), arriving);
      Both(o.endpoint, f, arriving, leaving + o.messages)
  {
    if i < |e.threads| {
      StepKeeps(e, f, arriving, leaving, i, expired, ok);
    } else {
      assert leaving + [] == leaving;
    }
  }

  /** The calls of other threads: forwardData and addOwner */
  lemma CallKeeps(e: Endpoint, f: Endpoint, arriving: seq<Message>, leaving: seq<Message>, a: Action)
    requires Both(e, f, arriving, leaving) && (a.ForwardData? || a.Own?)
    ensures
      var o := Act(e, a, arriving);
      Both(o.endpoint, f, arriving, leaving + o.messages)
  {
    assert leaving + [] == leaving;
    if a.ForwardData? {
      ForwardKeeps(e, f, arriving, leaving, a.p, a.timeout);
    } else {
      OwnKeeps(e, f, arriving, leaving, a.owner);
    }
  }

  lemma ActKeeps(e: Endpoint, f: Endpoint, arriving: seq<Message>, leaving: seq<Message>, a: Action)
    requires Both(e, f, arriving, leaving) && !Loses(e, a)
    ensures
      var o := Act(e, a, arriving);
      Both(o.endpoint, f, if Takes(e, a, arriving) then arriving[1..] else arriving, leaving + o.messages)
  {
    match a
    case OnConnected(ok) => ConnectedKeeps(e, f, arriving, leaving, ok);
    case OnDataArrive => HearKeeps(e, f, arriving, leaving);
    case Continue(ok) => ReceiveKeeps(e, f, arriving, leaving, ok);
    case ContinueForward(i, expired, ok) => ContinueKeeps(e, f, arriving, leaving, i, expired, ok);
    case _ => CallKeeps(e, f, arriving, leaving, a);
  }

  lemma TurnKeeps(w: World, t: Turn)
    requires Inv(w) && !After(w, t).lost
    ensures Inv(After(w, t))
  {
    if t.atClient {
      ActKeeps(w.client, w.server, w.down, w.up, t.action);
    } else {
      ActKeeps(w.server, w.client, w.up, w.down, t.action);
    }
  }

  lemma {:induction false} RunKeeps(w: World, script: seq<Turn>)
    requires Inv(w) && !Trace(w, script).lost
    ensures Inv(Trace(w, script))
  {
    if script != [] {
      RunKeeps(w, script[..|script| - 1]);
      TurnKeeps(Trace(w, script[..|script| - 1]), script[|script| - 1]);
    }
  }

  /** A READY or ACTIVE endpoint knows the other one. */
  predicate KnowsPeer(e: Endpoint, peer: Guid) {
    e.status == READY || e.status == ACTIVE ==> e.peerid == peer
  }

  /** What is taken as an id is the id of the other endpoint. */
  predicate TakesIds(e: Endpoint, peer: Guid) {
    Shaken(e) ==> e.receiver.m == Hello(peer)
  }

  /** What is promised of both ends */
  ghost predicate Good(w: World) {
    && KnowsPeer(w.client, w.server.id) && KnowsPeer(w.server, w.client.id)
    && TakesIds(w.client, w.server.id) && TakesIds(w.server, w.client.id)
    && Delivered(w.client, w.server) && Delivered(w.server, w.client)
  }

  /** In every run, as long as send has not failed for the server's id: handshakes that expire, failing sends of data and all
      interleavings included. */
  lemma EveryRun(client: Guid, server: Guid, c: Option<nat>, s: Option<nat>, script: seq<Turn>)
    requires !Trace(Begin(client, server, c, s), script).lost
    ensures
      var w := Trace(Begin(client, server, c, s), script);
      Good(w) && w.client.id == client && w.server.id == server
  {
    var b := Begin(client, server, c, s);
    BeginIsFine(client, server, c, s);
    RunKeeps(b, script);
    IdsStay(b, script);
  }

  lemma IdStays(e: Endpoint, a: Action, arriving: seq<Message>)
    ensures Act(e, a, arriving).endpoint.id == e.id
  {
    match a
    case OnDataArrive =>
    case ForwardData(p, timeout) =>
    case _ =>
  }

  lemma InvIsGood(w: World)
    requires Inv(w)
    ensures Good(w)
  {
  }

  lemma {:induction false} NotLostBefore(w: World, script: seq<Turn>, n: nat)
    requires !Trace(w, script).lost && n <= |script|
    ensures !Trace(w, script[..n]).lost
    decreases |script|
  {
    if n < |script| {
      var rest := script[..|script| - 1];
      assert Trace(w, script) == After(Trace(w, rest), script[|script| - 1]);
      NotLostBefore(w, rest, n);
      assert rest[..n] == script[..n];
    } else {
      assert script[..n] == script;
    }
  }

  lemma {:induction false} IdsStay(w: World, script: seq<Turn>)
    ensures Trace(w, script).client.id == w.client.id && Trace(w, script).server.id == w.server.id
  {
    if script != [] {
      var v, t := Trace(w, script[..|script| - 1]), script[|script| - 1];
      IdsStay(w, script[..|script| - 1]);
      IdStays(v.client, t.action, v.down);
      IdStays(v.server, t.action, v.up);
      assert Trace(w, script) == After(v, t);
    }
  }

  lemma OneMore(w: World, script: seq<Turn>, t: Turn)
    ensures Trace(w, script + [t]) == After(Trace(w, script), t)
  {
    assert (script + [t])[..|script|] == script;
  }

  /** The handshake of the client has expired: it takes nothing and sends nothing any more. */
  ghost predicate Deaf(e: Endpoint) {
    && !e.passive && e.started && e.greeted && !e.confirmed && e.status == IDLE && e.receiver.Free? && !e.ready
    && e.sent == [] && e.log == [] && forall t :: t in e.threads ==> !t.Sending?
  }

  /** The server has had the id of the client, and nothing else comes. */
  ghost predicate Alone(e: Endpoint, peer: Guid) {
    && e.passive && e.heard && e.log == []
    && (e.receiver.Free? || e.receiver.Signalling? || e.receiver == Confirming(Hello(peer)))
    && (e.status == READY || e.status == ACTIVE ==> e.peerid == peer)
  }

  ghost predicate Expired(w: World) {
    Deaf(w.client) && Alone(w.server, w.client.id) && w.up == []
  }

  lemma DeafStays(e: Endpoint, a: Action, arriving: seq<Message>)
    requires Deaf(e)
    ensures
      var o := Act(e, a, arriving);
      Deaf(o.endpoint) && o.messages == [] && o.endpoint.id == e.id
  {
    var r := Act(e, a, arriving).endpoint;
    if a.ContinueForward? && a.thread < |e.threads| {
      assert e.threads[a.thread] in e.threads;
    }
    forall t | t in r.threads
      ensures !t.Sending?
    {
      assert t in e.threads || !t.Sending?;
    }
  }

  lemma AloneStays(e: Endpoint, a: Action, peer: Guid)
    requires Alone(e, peer)
    ensures Alone(Act(e, a, []).endpoint, peer) && Act(e, a, []).endpoint.id == e.id
  {
    match a
    case OnConnected(ok) =>
    case OnDataArrive =>
    case Continue(ok) => AloneReceives(e, ok, peer);
    case ForwardData(p, timeout) =>
    case ContinueForward(i, expired, ok) => AloneSteps(e, i, expired, ok, peer);
    case Own(owner) =>
  }

  lemma AloneReceives(e: Endpoint, ok: bool, peer: Guid)
    requires Alone(e, peer)
    ensures Alone(Receive(e, ok).endpoint, peer)
  {
  }

  lemma AloneSteps(e: Endpoint, i: nat, expired: bool, ok: bool, peer: Guid)
    requires Alone(e, peer)
    ensures Alone(Act(e, ContinueForward(i, expired, ok), []).endpoint, peer)
  {
    if i < |e.threads| {
      if e.threads[i].Sending? && ok {
        AloneSends(e, i, e.threads[i].p, peer);
      } else {
        AloneMoves(e, i, expired, ok, peer);
      }
    }
  }

  lemma AloneMoves(e: Endpoint, i: nat, expired: bool, ok: bool, peer: Guid)
    requires Alone(e, peer) && i < |e.threads| && (e.threads[i].Sending? ==> !ok)
    ensures Alone(Step(e, i, expired, ok).endpoint, peer)
  {
    var t, idle := StepForm(e, i, expired, ok);
    AloneWaits(e, e.threads[i := t], peer);
  }

  lemma AloneSends(e: Endpoint, i: nat, p: Packet, peer: Guid)
    requires Alone(e, peer) && i < |e.threads| && e.threads[i] == Sending(p)
    ensures Alone(Step(e, i, true, true).endpoint, peer) && Step(e, i, false, true) == Step(e, i, true, true)
  {
  }

  lemma AloneWaits(e: Endpoint, threads: seq<Thread>, peer: Guid)
    requires Alone(e, peer)
    ensures Alone(e.(threads := threads), peer) && Alone(e.(threads := threads, status := IDLE), peer)
  {
  }

  lemma ExpiredStays(w: World, t: Turn)
    requires Expired(w)
    ensures Expired(After(w, t))
  {
    if t.atClient {
      DeafStays(w.client, t.action, w.down);
      assert w.up + [] == [];
    } else {
      AloneStays(w.server, t.action, w.client.id);
    }
  }

  lemma {:induction false} ExpiredIsGood(w: World, script: seq<Turn>)
    requires Expired(w)
    ensures Expired(Trace(w, script)) && Good(Trace(w, script))
  {
    if script != [] {
      ExpiredIsGood(w, script[..|script| - 1]);
      ExpiredStays(Trace(w, script[..|script| - 1]), script[|script| - 1]);
    }
  }

  /** When the reply is lost the client has heard nothing, and nothing is on its way to it. */
  lemma ClientWaits(w: World)
    requires Inv(w) && w.server.receiver.Shaking?
    ensures w.down == [] && w.server.sent == [] && w.client.started && w.client.greeted && !w.client.heard
    ensures w.client.receiver.Free? && (w.client.status == IDLE || w.client.status == HANDSHAKING)
    ensures w.up == [] && w.client.sent == [] && w.client.log == w.server.log == []
  {
    assert Encoded(w.server.sent) == [];
    assert w.client.sent[w.server.taken..] == [];
  }

  lemma LostIsExpired(w: World, t: Turn)
    requires Inv(w) && !t.atClient && Loses(w.server, t.action) && w.client.status == IDLE
    ensures Expired(After(w, t))
  {
    ClientWaits(w);
  }

  const SERVER_GOES_ON: Turn := Turn(false, Continue(true))

  /** The server goes on to send data, and the client takes them for an id. */
  lemma DataTaken(w: World, p: Packet) returns (script: seq<Turn>)
    requires w.server.passive && w.server.receiver.Confirming? && w.client.started && w.client.receiver.Free?
    requires w.client.status == HANDSHAKING && w.down == []
    ensures !Good(Trace(w, script))
  {
    var go := Turn(false, ContinueForward(|w.server.threads|, false, true));
    var forward := Turn(false, ForwardData(p, 0));
    script := [] + [SERVER_GOES_ON] + [SERVER_GOES_ON];
    OneMore(w, [], SERVER_GOES_ON);
    OneMore(w, [] + [SERVER_GOES_ON], SERVER_GOES_ON);
    var ready := Trace(w, script);
    assert ready.server.status == READY && ready.server.threads == w.server.threads && ready.client == w.client && ready.down == [];
    SentByServer(ready, p);
    OneMore(w, script, forward);
    OneMore(w, script + [forward], go);
    OneMore(w, script + [forward] + [go], go);
    script := script + [forward] + [go] + [go];
    OneMore(w, script, Turn(true, OnDataArrive));
    script := script + [Turn(true, OnDataArrive)];
  }

  lemma SentByServer(w: World, p: Packet)
    requires w.server.passive && w.server.status == READY && w.down == []
    ensures
      var go := Turn(false, ContinueForward(|w.server.threads|, false, true));
      var v := After(After(After(w, Turn(false, ForwardData(p, 0))), go), go);
      v.down == [Encode(p)] && v.client == w.client
  {
  }

  /** A reply that is lost does no harm, whatever happens next, exactly when the handshake of the client has
      expired. */
  lemma LostReplyIsGoodIff(w: World, t: Turn)
    requires Inv(w) && !t.atClient && Loses(w.server, t.action)
    ensures w.client.status == IDLE <==> forall script :: Good(Trace(After(w, t), script))
  {
    ClientWaits(w);
    if w.client.status == IDLE {
      LostIsExpired(w, t);
      forall script
        ensures Good(Trace(After(w, t), script))
      {
        ExpiredIsGood(After(w, t), script);
      }
    } else {
      var script := DataTaken(After(w, t), Packet([], NO_ADDRESS, 0, NO_ADDRESS, 0));
    }
  }

  /** Three turns more */
  lemma ThreeMore(b: World, script: seq<Turn>, t0: Turn, t1: Turn, t2: Turn)
    ensures Trace(b, script + [t0] + [t1] + [t2]) == After(After(After(Trace(b, script), t0), t1), t2)
  {
    OneMore(b, script, t0);
    OneMore(b, script + [t0], t1);
    OneMore(b, script + [t0] + [t1], t2);
  }

  /** The client has sent its id, and the server takes it. */
  lemma ServerTakesId(client: Guid, server: Guid) returns (script: seq<Turn>)
    ensures
      var b := Begin(client, server, None, None);
      Trace(b, script) == World(
        b.client.(started := true, greeted := true, hello := true, status := HANDSHAKING),
        b.server.(started := true, status := HANDSHAKING, heard := true, receiver := Shaking(Hello(client))),
        [], [], false)
  {
    var b := Begin(client, server, None, None);
    var connected := Turn(true, OnConnected(true));
    script := [] + [connected] + [connected] + [Turn(false, OnConnected(true))];
    ThreeMore(b, [], connected, connected, Turn(false, OnConnected(true)));
    OneMore(b, script, Turn(false, OnDataArrive));
    script := script + [Turn(false, OnDataArrive)];
  }

  /** The server's reply is lost, and the server is ready. */
  lemma ReplyIsLost(client: Guid, server: Guid) returns (script: seq<Turn>)
    ensures
      var b := Begin(client, server, None, None);
      var w := Trace(b, script);
      && w.client == b.client.(started := true, greeted := true, hello := true, status := HANDSHAKING)
      && w.server == b.server.(started := true, heard := true, confirmed := true, peerid := client, status := READY)
      && w.up == w.down == [] && w.lost
  {
    var b := Begin(client, server, None, None);
    script := ServerTakesId(client, server);
    ThreeMore(b, script, Turn(false, Continue(false)), Turn(false, Continue(true)), Turn(false, Continue(true)));
    script := script + [Turn(false, Continue(false))] + [Turn(false, Continue(true))] + [Turn(false, Continue(true))];
  }

  /** Still the server goes on to send data. */
  lemma DataIsReady(client: Guid, server: Guid, p: Packet) returns (script: seq<Turn>)
    ensures
      var b := Begin(client, server, None, None);
      Trace(b, script) == World(
        b.client.(started := true, greeted := true, hello := true, status := HANDSHAKING),
        b.server.(started := true, heard := true, confirmed := true, peerid := client, status := READY, threads := [Sending(p)]),
        [], [], true)
  {
    var b := Begin(client, server, None, None);
    script := ReplyIsLost(client, server);
    OneMore(b, script, Turn(false, ForwardData(p, 0)));
    script := script + [Turn(false, ForwardData(p, 0))];
    OneMore(b, script, Turn(false, ContinueForward(0, false, true)));
    script := script + [Turn(false, ContinueForward(0, false, true))];
  }

  lemma DataIsSent(client: Guid, server: Guid, p: Packet) returns (script: seq<Turn>)
    ensures
      var b := Begin(client, server, None, None);
      var w := Trace(b, script);
      && w.client == b.client.(started := true, greeted := true, hello := true, status := HANDSHAKING)
      && w.down == [Encode(p)]
  {
    script := DataIsReady(client, server, p);
    OneMore(Begin(client, server, None, None), script, Turn(false, ContinueForward(0, false, true)));
    script := script + [Turn(false, ContinueForward(0, false, true))];
  }

  /** Without the server's id the client takes the server's first data message for it. */
  lemma DataTakenForId(client: Guid, server: Guid, p: Packet) returns (script: seq<Turn>)
    requires server != TUNNEL_VERSION
    ensures
      var w := Trace(Begin(client, server, None, None), script);
      w.client.status == READY && !KnowsPeer(w.client, server)
  {
    script := DataIsSent(client, server, p);
    var arrives, continues := Turn(true, OnDataArrive), Turn(true, Continue(true));
    ThreeMore(Begin(client, server, None, None), script, arrives, continues, continues);
    script := script + [arrives] + [continues] + [continues];
  }
}

/** An endpoint with the fields of the source; a method is one access of a callback or of forwardData. */
module TunnelConnections {
  import opened Bytes
  import opened TunnelEndpoints
  import opened TunnelRuns
  import opened TunnelOwners

  class TunnelConnection {
    const passive: bool
    const id: Guid
    var peerid: Guid
    var status: Status
    var ready: bool
    var owners: seq<nat>
    const fallback: Option<nat>
    var receiver: Receiver
    var threads: seq<Thread>
    var log: seq<Round>
    var started: bool
    var greeted: bool
    var hello: bool
    var heard: bool
    var confirmed: bool
    var taken: nat
    var sent: seq<Packet>

    function View(): Endpoint
      reads this
    {
      Endpoint(passive, id, peerid, status, ready, owners, fallback, receiver, threads, log,
        started, greeted, hello, heard, confirmed, taken, sent)
    }

    constructor (passive: bool, id: Guid, fallback: Option<nat>)
      ensures View() == Start(passive, id, fallback)
    {
      this.passive, this.id, this.fallback := passive, id, fallback;
      peerid, status, ready, owners := 0, IDLE, false, [];
      receiver, threads, log := Free, [], [];
      started, greeted, hello, heard, confirmed, taken, sent := false, false, false, false, false, 0, [];
    }

    method OnConnected(ok: bool) returns (out: seq<Message>)
      modifies this
      ensures Output(View(), out) == Connected(old(View()), ok)
    {
      out := [];
      if !started {
        started := true;
        status := HANDSHAKING;
      } else if !passive && !greeted {
        greeted := true;
        hello := ok;
        if ok {
          out := [Hello(id)];
        }
      }
    }

    method OnDataArrive(m: Message)
      requires receiver.Free?
      modifies this
      ensures View() == Arrive(old(View()), m)
    {
      taken := taken + if heard then 1 else 0;
      heard := true;
      if status == HANDSHAKING {
        receiver := Shaking(m);
        return;
      }
      if status != READY && status != ACTIVE {
        return;
      }
      if m.Hello? || m.version != TUNNEL_VERSION {
        return;
      }
      receiver := Opening(m);
    }

    /** The rest of OnDataArrive, access by access */
    method ContinueArrive(ok: bool) returns (out: seq<Message>)
      modifies this
      ensures Output(View(), out) == Receive(old(View()), ok)
    {
      out := [];
      match receiver
      case Free =>
      case Shaking(m) =>
        receiver := Confirming(m);
        if passive {
          hello := ok;
          if ok {
            out := [Hello(id)];
          }
        }
      case Confirming(m) =>
        peerid := AsGuid(m);
        status := READY;
        confirmed := true;
        receiver := Signalling;
      case Signalling =>
        ready := !passive;
        receiver := Free;
      case Opening(m) =>
        Process(m);
    }

    /** A message of the right version: data go to every owner, the default conversation if there is none. */
    method Process(m: Message)
      requires receiver == Opening(m)
      modifies `status, `receiver, `owners, `log
      ensures Output(View(), []) == Receive(old(View()), true) == Receive(old(View()), false)
    {
      status := ACTIVE;
      receiver := Free;
      if m.Data? && m.kind == 0 {
        if owners == [] && fallback.Some? {
          owners := [fallback.value];
        }
        log := log + [Round(Decode(m), owners)];
      }
    }

    method ForwardData(p: Packet, timeout: int)
      modifies this
      ensures View() == Forward(old(View()), p, timeout)
    {
      var waits := status == HANDSHAKING && timeout > 0 && !passive;
      threads := threads + [if waits then Waiting(p) else Checking(p)];
    }

    /** The rest of a call of forwardData, access by access */
    method ContinueForward(i: nat, expired: bool, ok: bool) returns (out: seq<Message>)
      requires i < |threads|
      modifies this
      ensures Output(View(), out) == Step(old(View()), i, expired, ok)
    {
      out := [];
      match threads[i]
      case Waiting(p) =>
        if ready {
          threads := threads[i := Checking(p)];
        } else if expired {
          threads := threads[i := TimedOut];
        }
      case TimedOut =>
        status := IDLE;
        threads := threads[i := Done];
      case Checking(p) =>
        threads := threads[i := if status == READY || status == ACTIVE then Sending(p) else Done];
      case Sending(p) =>
        threads := threads[i := Done];
        if ok {
          sent := sent + [p];
          out := [Encode(p)];
        }
      case Done =>
    }

    method Own(owner: nat)
      modifies this
      ensures View() == AddOwner(old(View()), owner)
    {
      if owner !in owners {
        owners := owners + [owner];
      }
    }
  }

  /** A client and an accepted connection with the messages between them */
  class Link {
    const client: TunnelConnection
    const server: TunnelConnection
    var up: seq<Message>
    var down: seq<Message>
    ghost var lost: bool

    ghost function View(): World
      reads this, client, server
    {
      World(client.View(), server.View(), up, down, lost)
    }

    ghost predicate Valid()
      reads this, client, server
    {
      client != server && Inv(View()) && !lost
    }

    constructor (clientId: Guid, serverId: Guid, c: Option<nat>, s: Option<nat>)
      ensures Valid() && View() == Begin(clientId, serverId, c, s) && Once(View())
      ensures fresh(client) && fresh(server)
    {
      client := new TunnelConnection(false, clientId, c);
      server := new TunnelConnection(true, serverId, s);
      up, down, lost := [], [], false;
      new;
      BeginIsFine(clientId, serverId, c, s);
    }

    /** One action of an endpoint: what it sends, and whether it takes the message that is there first */
    static method Act(e: TunnelConnection, a: Action, arriving: seq<Message>) returns (out: seq<Message>, taken: bool)
      modifies e
      ensures Output(e.View(), out) == TunnelRuns.Act(old(e.View()), a, arriving)
      ensures taken == Takes(old(e.View()), a, arriving)
    {
      out, taken := [], false;
      match a
      case OnConnected(ok) => out := e.OnConnected(ok);
      case OnDataArrive =>
        if e.started && e.receiver.Free? && arriving != [] {
          taken := true;
          e.OnDataArrive(arriving[0]);
        }
      case Continue(ok) => out := e.ContinueArrive(ok);
      case ForwardData(p, timeout) => e.ForwardData(p, timeout);
      case ContinueForward(i, expired, ok) =>
        if i < |e.threads| {
          out := e.ContinueForward(i, expired, ok);
        }
      case Own(owner) => e.Own(owner);
    }

    /** One turn, as long as it does not lose the server's id */
    method Take(t: Turn)
      requires Valid() && !After(View(), t).lost
      modifies this, client, server
      ensures Valid() && View() == After(old(View()), t)
    {
      TurnKeeps(View(), t);
      ghost var next := After(View(), t);
      if t.atClient {
        var out, taken := Act(client, t.action, down);
        up := up + out;
        if taken {
          down := down[1..];
        }
      } else {
        var out, taken := Act(server, t.action, up);
        down := down + out;
        if taken {
          up := up[1..];
        }
      }
      assert View() == next;
    }

    /** Any interleaving of the two ends, with all that is promised: peers know each other, ids are not taken for data
        nor data for ids, deliveries are what was forwarded first at the other end, and each is handed to all owners. */
    method Execute(script: seq<Turn>)
      requires Valid() && !Trace(View(), script).lost
      modifies this, client, server
      ensures Valid() && View() == Trace(old(View()), script) && Good(View())
      ensures Once(old(View())) ==> AllCalled(old(View()), script, true) && AllCalled(old(View()), script, false)
    {
      ghost var start := View();
      var i := 0;
      assert script[..|script|] == script;
      while i < |script|
        invariant i <= |script| && Valid() && View() == Trace(start, script[..i])
      {
        TakeNext(script, i, start);
        i := i + 1;
      }
      InvIsGood(View());
      if Once(start) {
        EveryoneIsCalled(start, script, true);
        EveryoneIsCalled(start, script, false);
      }
    }

    method TakeNext(script: seq<Turn>, i: nat, ghost start: World)
      requires i < |script| && Valid() && View() == Trace(start, script[..i]) && !Trace(start, script).lost
      modifies this, client, server
      ensures Valid() && View() == Trace(start, script[..i + 1])
    {
      NotLostBefore(start, script, i + 1);
      assert script[..i + 1][..i] == script[..i];
      Take(script[i]);
    }
  }
}
