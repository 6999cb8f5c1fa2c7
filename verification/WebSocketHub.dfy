/**
  The WebSocket hub: two indices over one set of clients, bounded queues, snapshot-then-deliver broadcasts and
  close-once teardown, as one state machine whose steps are the atomic actions of its goroutines.

  `AddClient`, `RemoveClient` and `Clear` are what the hub does to its indices under its lock; the class `Hub`
  does the same to its two maps. The theorems hold in every state reachable by any interleaving.
 */
module WebSocketHub {
  import opened Sequences

  type Uuid = nat

  // A connection; `id` is its identity, the other fields never change.
  datatype Client = Client(id: nat, ws: Uuid, user: Uuid)

  datatype UserKey = UserKey(ws: Uuid, user: Uuid)

  const SEND_BUFFER: nat := 32
  const CHANNEL: nat := 64

  function KeyOf(c: Client): UserKey {
    UserKey(c.ws, c.user)
  }

  // ---------------------------------------------------------------- the two indices

  datatype Index = Index(clients: map<UserKey, set<Client>>, byWorkspace: map<Uuid, set<Client>>)

  const NOBODY := Index(map[], map[])

  function Members<K>(m: map<K, set<Client>>, k: K): set<Client> {
    if k in m then m[k] else {}
  }

  // A set that becomes empty is not kept.
  function Without<K>(m: map<K, set<Client>>, k: K, c: Client): map<K, set<Client>> {
    var rest := Members(m, k) - {c};
    if k !in m then m else if rest == {} then m - {k} else m[k := rest]
  }

  function With<K>(m: map<K, set<Client>>, k: K, c: Client): map<K, set<Client>> {
    m[k := Members(m, k) + {c}]
  }

  function AddClient(ix: Index, c: Client): Index {
    Index(With(ix.clients, KeyOf(c), c), With(ix.byWorkspace, c.ws, c))
  }

  // Without a set for its key, nothing is touched and the client is not shut down either.
  function RemoveClient(ix: Index, c: Client): (Index, bool) {
    if KeyOf(c) !in ix.clients then (ix, false)
    else (Index(Without(ix.clients, KeyOf(c), c), Without(ix.byWorkspace, c.ws, c)), true)
  }

  ghost predicate Registered(ix: Index, c: Client) {
    c in Members(ix.clients, KeyOf(c))
  }

  ghost predicate NoneEmpty<K>(m: map<K, set<Client>>) {
    forall k <- m :: m[k] != {}
  }

  ghost predicate Filed(ix: Index) {
    && (forall k, c :: c in Members(ix.clients, k) ==> KeyOf(c) == k)
    && (forall ws, c :: c in Members(ix.byWorkspace, ws) ==> c.ws == ws)
  }

  // Both indices hold the same clients, each under its own keys, and no set is empty.
  ghost predicate Consistent(ix: Index) {
    && NoneEmpty(ix.clients) && NoneEmpty(ix.byWorkspace) && Filed(ix)
    && (forall c: Client :: c in Members(ix.clients, KeyOf(c)) <==> c in Members(ix.byWorkspace, c.ws))
  }

  lemma MembersWith<K>(m: map<K, set<Client>>, k: K, c: Client, j: K)
    ensures Members(With(m, k, c), j) == Members(m, j) + if j == k then {c} else {}
  {
  }

  lemma MembersWithout<K>(m: map<K, set<Client>>, k: K, c: Client, j: K)
    ensures Members(Without(m, k, c), j) == Members(m, j) - if j == k then {c} else {}
  {
  }

  lemma NoneEmptyKept<K>(m: map<K, set<Client>>, k: K, c: Client)
    requires NoneEmpty(m)
    ensures NoneEmpty(With(m, k, c)) && NoneEmpty(Without(m, k, c))
  {
    var w := With(m, k, c);
    forall j <- w ensures w[j] != {} {
      if j == k { assert c in w[j]; }
    }
  }

  lemma AddKeeps(ix: Index, c: Client)
    requires Consistent(ix)
    ensures Consistent(AddClient(ix, c))
    ensures forall x :: Registered(AddClient(ix, c), x) <==> x == c || Registered(ix, x)
  {
    var ix' := AddClient(ix, c);
    NoneEmptyKept(ix.clients, KeyOf(c), c);
    NoneEmptyKept(ix.byWorkspace, c.ws, c);
    forall k ensures Members(ix'.clients, k) == Members(ix.clients, k) + if k == KeyOf(c) then {c} else {} {
      MembersWith(ix.clients, KeyOf(c), c, k);
    }
    forall ws ensures Members(ix'.byWorkspace, ws) == Members(ix.byWorkspace, ws) + if ws == c.ws then {c} else {} {
      MembersWith(ix.byWorkspace, c.ws, c, ws);
    }
  }

  lemma RemoveKeeps(ix: Index, c: Client)
    requires Consistent(ix)
    ensures Consistent(RemoveClient(ix, c).0)
    ensures forall x :: Registered(RemoveClient(ix, c).0, x) <==> x != c && Registered(ix, x)
    ensures RemoveClient(ix, c).1 <==> exists x :: Registered(ix, x) && KeyOf(x) == KeyOf(c)
  {
    var ix' := RemoveClient(ix, c).0;
    if KeyOf(c) in ix.clients {
      var x :| x in ix.clients[KeyOf(c)];
      assert x in Members(ix.clients, KeyOf(c)) && Registered(ix, x);
    }
    if KeyOf(c) in ix.clients {
      NoneEmptyKept(ix.clients, KeyOf(c), c);
      NoneEmptyKept(ix.byWorkspace, c.ws, c);
      forall k ensures Members(ix'.clients, k) == Members(ix.clients, k) - if k == KeyOf(c) then {c} else {} {
        MembersWithout(ix.clients, KeyOf(c), c, k);
      }
      forall ws ensures Members(ix'.byWorkspace, ws) == Members(ix.byWorkspace, ws) - if ws == c.ws then {c} else {} {
        MembersWithout(ix.byWorkspace, c.ws, c, ws);
      }
    }
  }

  // Needs no consistency: removal takes out that client and brings nobody in.
  lemma RemoveShrinks(ix: Index, c: Client)
    ensures var ix' := RemoveClient(ix, c).0; forall x :: Registered(ix', x) ==> x != c && Registered(ix, x)
  {
    forall x | KeyOf(c) in ix.clients
      ensures Members(Without(ix.clients, KeyOf(c), c), KeyOf(x)) == Members(ix.clients, KeyOf(x)) -
          if KeyOf(x) == KeyOf(c) then {c} else {}
    {
      MembersWithout(ix.clients, KeyOf(c), c, KeyOf(x));
    }
  }

  /** A workspace broadcast reaches exactly the clients of that workspace's users, each under one user. */
  lemma WorkspaceIsDisjointUnion(ix: Index, ws: Uuid)
    requires Consistent(ix)
    ensures Members(ix.byWorkspace, ws) == set k, c | k in ix.clients && k.ws == ws && c in ix.clients[k] :: c
    ensures forall u, v :: u != v ==> Members(ix.clients, UserKey(ws, u)) !! Members(ix.clients, UserKey(ws, v))
  {
    var union := set k, c | k in ix.clients && k.ws == ws && c in ix.clients[k] :: c;
    forall c | c in Members(ix.byWorkspace, ws) ensures c in union {
      assert c in Members(ix.clients, KeyOf(c));
    }
    forall c | c in union ensures c in Members(ix.byWorkspace, ws) {
      var k :| k in ix.clients && k.ws == ws && c in ix.clients[k];
      assert c in Members(ix.clients, k) && KeyOf(c) == k;
      assert c in Members(ix.byWorkspace, c.ws);
    }
    forall u, v | u != v ensures Members(ix.clients, UserKey(ws, u)) !! Members(ix.clients, UserKey(ws, v)) {
      forall c <- Members(ix.clients, UserKey(ws, u)) ensures c !in Members(ix.clients, UserKey(ws, v)) {
        assert KeyOf(c) == UserKey(ws, u);
      }
    }
  }

  // ---------------------------------------------------------------- the whole system

  // A payload, tagged with the broadcast that carries it.
  datatype Message = Message(broadcast: nat, payload: string)

  // One client's outbound side. `offered` records, in order, the messages deliver tried to hand to it.
  datatype Outbox = Outbox(queue: seq<Message>, written: seq<Message>, offered: seq<Message>,
                           done: bool, closes: nat, exited: bool)

  const FRESH := Outbox([], [], [], false, 0, false)

  // A broadcast whose snapshot has been taken and which still has `left` to visit.
  datatype Delivery = Delivery(message: Message, left: set<Client>)

  // `closing` are the clients taken out of the indices whose shutdown call is still to come; `joined` records
  // every client that was ever added.
  datatype State = State(ix: Index, register: seq<Client>, unregister: seq<Client>, stopped: bool,
                         boxes: map<Client, Outbox>, closing: set<Client>, deliveries: seq<Delivery>,
                         joined: set<Client>)

  const INIT := State(NOBODY, [], [], false, map[], {}, [], {})

  function Offered(b: Outbox, m: Message, send: bool): Outbox {
    b.(offered := b.offered + [m], queue := if send then b.queue + [m] else b.queue)
  }

  function Wrote(b: Outbox, ok: bool): Outbox
    requires b.queue != []
  {
    b.(queue := b.queue[1..], written := if ok then b.written + [b.queue[0]] else b.written, exited := !ok)
  }

  function Closed(b: Outbox): Outbox {
    if b.done then b else b.(done := true, closes := b.closes + 1)
  }

  function Box(s: State, c: Client): Outbox {
    if c in s.boxes then s.boxes[c] else FRESH
  }

  function Remove(s: State, c: Client): State {
    var (ix, shut) := RemoveClient(s.ix, c);
    s.(ix := ix, closing := if shut then s.closing + {c} else s.closing)
  }

  // Non-blocking: a full channel is bypassed by removing inline.
  function Unregister(s: State, c: Client): State {
    if |s.unregister| < CHANNEL then s.(unregister := s.unregister + [c]) else Remove(s, c)
  }

  function Everyone(ix: Index): set<Client> {
    set k, c | k in ix.clients && c in ix.clients[k] :: c
  }

  datatype Target = OneUser(key: UserKey) | WholeWorkspace(ws: Uuid)

  datatype Step =
    | Register(c: Client)                              // a connection asks in
    | HubAdd | HubRemove | HubStop                     // the event loop
    | Leave(c: Client)                                 // a read pump ends
    | Shutdown(c: Client)                              // the done channel is closed, once
    | Broadcast(target: Target, payload: string)       // the snapshot under the read lock
    | Offer(i: nat, c: Client, send: bool)             // one turn of deliver's select
    | Write(c: Client, ok: bool) | Quit(c: Client)     // the write pump

  function Snapshot(ix: Index, t: Target): set<Client> {
    match t
    case OneUser(key) => Members(ix.clients, key)
    case WholeWorkspace(ws) => Members(ix.byWorkspace, ws)
  }

  // `send` resolves the choice of select when both the queue has room and the client is done.
  ghost predicate Enabled(s: State, st: Step) {
    match st
    case Register(_) => |s.register| < CHANNEL
    case HubAdd => !s.stopped && s.register != []
    case HubRemove => !s.stopped && s.unregister != []
    case HubStop => !s.stopped
    case Leave(_) => true
    case Shutdown(c) => c in s.closing
    case Broadcast(_, _) => true
    case Offer(i, c, send) =>
      && i < |s.deliveries| && c in s.deliveries[i].left
      && (send ==> |Box(s, c).queue| < SEND_BUFFER)
      && (!send && |Box(s, c).queue| < SEND_BUFFER ==> Box(s, c).done)
    case Write(c, _) => !Box(s, c).exited && Box(s, c).queue != []
    case Quit(c) => !Box(s, c).exited && Box(s, c).done
  }

  function Visited(s: State, i: nat, c: Client, send: bool): State
    requires i < |s.deliveries|
  {
    var d := s.deliveries[i];
    s.(deliveries := s.deliveries[i := d.(left := d.left - {c})],
       boxes := s.boxes[c := Offered(Box(s, c), d.message, send)])
  }

  function Turn(s: State, i: nat, c: Client, send: bool): State
    requires i < |s.deliveries|
  {
    if send || Box(s, c).done then Visited(s, i, c, send) else Unregister(Visited(s, i, c, send), c)
  }

  function Next(s: State, st: Step): State
    requires Enabled(s, st)
  {
    match st
    case Register(c) => s.(register := s.register + [c])
    case HubAdd =>
      s.(register := s.register[1..], ix := AddClient(s.ix, s.register[0]), joined := s.joined + {s.register[0]})
    case HubRemove => Remove(s.(unregister := s.unregister[1..]), s.unregister[0])
    case HubStop => s.(ix := NOBODY, stopped := true, closing := s.closing + Everyone(s.ix))
    case Leave(c) => Unregister(s, c)
    case Shutdown(c) =>
      s.(closing := s.closing - {c}, boxes := s.boxes[c := Closed(Box(s, c))])
    case Broadcast(t, payload) =>
      s.(deliveries := s.deliveries + [Delivery(Message(|s.deliveries|, payload), Snapshot(s.ix, t))])
    case Offer(i, c, send) => Turn(s, i, c, send)
    case Write(c, ok) => s.(boxes := s.boxes[c := Wrote(Box(s, c), ok)])
    case Quit(c) => s.(boxes := s.boxes[c := Box(s, c).(exited := true)])
  }

  ghost predicate Runs(s: State, steps: seq<Step>)
    decreases |steps|
  {
    steps == [] || (Enabled(s, steps[0]) && Runs(Next(s, steps[0]), steps[1..]))
  }

  function After(s: State, steps: seq<Step>): State
    requires Runs(s, steps)
    decreases |steps|
  {
    if steps == [] then s else After(Next(s, steps[0]), steps[1..])
  }

  /** A broadcast is aimed at exactly the registered clients in its scope. */
  lemma BroadcastScope(s: State, t: Target, payload: string, c: Client)
    requires Consistent(s.ix)
    ensures var ds := Next(s, Broadcast(t, payload)).deliveries;
            && |ds| == |s.deliveries| + 1 && ds[|s.deliveries|].message.payload == payload
            && (c in ds[|s.deliveries|].left <==>
                  && Registered(s.ix, c)
                  && match t case OneUser(key) => KeyOf(c) == key case WholeWorkspace(ws) => c.ws == ws)
  {
    assert c in Members(s.ix.clients, KeyOf(c)) <==> c in Members(s.ix.byWorkspace, c.ws);
  }

  // ---------------------------------------------------------------- what every step keeps

  ghost predicate NoRepeats(ms: seq<Message>) {
    forall i, j :: 0 <= i < j < |ms| ==> ms[i].broadcast != ms[j].broadcast
  }

  // A client's outbox: bounded, closed at most once, and holding a selection of what it was offered, in order.
  ghost predicate BoxOk(b: Outbox) {
    && |b.queue| <= SEND_BUFFER
    && b.closes == (if b.done then 1 else 0)
    && Subsequence(b.written + b.queue, b.offered)
    && NoRepeats(b.offered)
  }

  // Deliveries are numbered in order, and a client still to be visited has not been offered that broadcast.
  ghost predicate DeliveriesOk(s: State) {
    && (forall i :: 0 <= i < |s.deliveries| ==> s.deliveries[i].message.broadcast == i)
    && (forall c :: OffersOk(s.deliveries, c, Box(s, c).offered))
  }

  // A client was offered only messages of deliveries, and none of a delivery that is still to visit it.
  ghost predicate OffersOk(deliveries: seq<Delivery>, c: Client, offered: seq<Message>) {
    && (forall m <- offered :: m.broadcast < |deliveries| && m == deliveries[m.broadcast].message)
    && (forall i :: 0 <= i < |deliveries| && c in deliveries[i].left ==> deliveries[i].message !in offered)
  }

  // Whoever was added is still registered or has been, or is about to be, shut down.
  ghost predicate NobodyLost(s: State) {
    forall c <- s.joined :: Registered(s.ix, c) || Box(s, c).done || c in s.closing
  }

  ghost predicate IndexOk(s: State) {
    && Consistent(s.ix)
    && (forall c :: Registered(s.ix, c) ==> c in s.joined)
    && NobodyLost(s)
  }

  ghost predicate Ok(s: State) {
    && IndexOk(s)
    && (forall c :: BoxOk(Box(s, c)))
    && DeliveriesOk(s)
  }

  lemma RemoveIndexOk(s: State, c: Client)
    requires IndexOk(s)
    ensures IndexOk(Remove(s, c))
    ensures !Registered(Remove(s, c).ix, c)
  {
    RemoveKeeps(s.ix, c);
  }

  lemma UnregisterIndexOk(s: State, c: Client)
    requires IndexOk(s)
    ensures IndexOk(Unregister(s, c))
  {
    RemoveIndexOk(s, c);
  }

  lemma IndexStep(s: State, st: Step)
    requires IndexOk(s) && Enabled(s, st)
    ensures IndexOk(Next(s, st))
  {
    match st {
      case HubAdd => AddKeeps(s.ix, s.register[0]);
      case HubRemove => RemoveIndexOk(s.(unregister := s.unregister[1..]), s.unregister[0]);
      case HubStop =>
        forall c <- s.joined ensures Registered(s.ix, c) ==> c in Everyone(s.ix) {
          if Registered(s.ix, c) { assert c in s.ix.clients[KeyOf(c)]; }
        }
      case Leave(c) => UnregisterIndexOk(s, c);
      case Offer(i, c, send) =>
        if !send && !Box(s, c).done { UnregisterIndexOk(Visited(s, i, c, send), c); }
      case _ =>
    }
  }

  lemma OfferedOk(b: Outbox, m: Message, send: bool)
    requires BoxOk(b) && (send ==> |b.queue| < SEND_BUFFER)
    requires forall x <- b.offered :: x.broadcast != m.broadcast
    ensures BoxOk(Offered(b, m, send))
  {
    SubsequenceAppend(b.written + b.queue, b.offered, m);
    assert b.written + (b.queue + [m]) == b.written + b.queue + [m];
    assert forall k :: 0 <= k < |b.offered| ==> b.offered[k] in b.offered;
  }

  lemma WroteOk(b: Outbox, ok: bool)
    requires BoxOk(b) && b.queue != []
    ensures BoxOk(Wrote(b, ok))
  {
    assert b.written + b.queue == b.written + [b.queue[0]] + b.queue[1..];
    SubsequenceDrop(b.written, b.queue[0], b.queue[1..], b.offered);
  }

  // Which steps touch an outbox, and how.
  lemma BoxStep(s: State, st: Step, c: Client)
    requires Enabled(s, st) && BoxOk(Box(s, c)) && DeliveriesOk(s)
    ensures BoxOk(Box(Next(s, st), c))
  {
    match st {
      case Offer(i, x, send) =>
        if x == c {
          var m := s.deliveries[i].message;
          forall y <- Box(s, c).offered ensures y.broadcast != m.broadcast {
            assert y == s.deliveries[y.broadcast].message;
          }
          OfferedOk(Box(s, c), m, send);
        }
      case Write(x, ok) =>
        if x == c { WroteOk(Box(s, c), ok); }
      case _ =>
    }
  }

  lemma DeliveriesStep(s: State, st: Step)
    requires Enabled(s, st) && DeliveriesOk(s)
    ensures DeliveriesOk(Next(s, st))
  {
    match st {
      case Broadcast(t, payload) => BroadcastStep(s, t, payload);
      case Offer(i, x, send) => OfferStep(s, i, x, send);
      case _ => QuietStep(s, st);
    }
  }

  // Steps that neither start a delivery nor offer anything.
  lemma QuietStep(s: State, st: Step)
    requires Enabled(s, st) && DeliveriesOk(s) && !st.Broadcast? && !st.Offer?
    ensures DeliveriesOk(Next(s, st))
  {
    var s' := Next(s, st);
    assert s'.deliveries == s.deliveries;
    forall c ensures OffersOk(s'.deliveries, c, Box(s', c).offered) {
      assert OffersOk(s.deliveries, c, Box(s, c).offered);
      assert Box(s', c).offered == Box(s, c).offered;
    }
  }

  lemma BroadcastStep(s: State, t: Target, payload: string)
    requires DeliveriesOk(s)
    ensures DeliveriesOk(Next(s, Broadcast(t, payload)))
  {
    var s' := Next(s, Broadcast(t, payload));
    assert s'.deliveries[..|s.deliveries|] == s.deliveries && s'.boxes == s.boxes;
    forall c ensures OffersOk(s'.deliveries, c, Box(s', c).offered) {
      assert OffersOk(s.deliveries, c, Box(s, c).offered);
      assert Box(s', c).offered == Box(s, c).offered;
    }
  }

  lemma OfferStep(s: State, i: nat, x: Client, send: bool)
    requires Enabled(s, Offer(i, x, send)) && DeliveriesOk(s)
    ensures DeliveriesOk(Turn(s, i, x, send))
  {
    var t := Turn(s, i, x, send);
    forall c ensures OffersOk(t.deliveries, c, Box(t, c).offered) {
      assert OffersOk(s.deliveries, c, Box(s, c).offered);
      OfferTo(s.deliveries, i, x, c, Box(s, c).offered);
    }
  }

  // Visiting `x` for delivery `i` as client `c` sees it.
  lemma OfferTo(ds: seq<Delivery>, i: nat, x: Client, c: Client, offered: seq<Message>)
    requires OffersOk(ds, c, offered) && i < |ds| && x in ds[i].left
    requires forall k :: 0 <= k < |ds| ==> ds[k].message.broadcast == k
    ensures var ds' := ds[i := ds[i].(left := ds[i].left - {x})];
            OffersOk(ds', c, if c == x then offered + [ds[i].message] else offered)
  {
    var m := ds[i].message;
    forall k | 0 <= k < |ds| && k != i ensures ds[k].message != m {
      assert ds[k].message.broadcast == k;
    }
  }

  lemma {:induction false} Reachable(s: State, steps: seq<Step>)
    requires Ok(s) && Runs(s, steps)
    ensures Ok(After(s, steps))
    decreases |steps|
  {
    if steps != [] {
      IndexStep(s, steps[0]);
      DeliveriesStep(s, steps[0]);
      forall c ensures BoxOk(Box(Next(s, steps[0]), c)) { BoxStep(s, steps[0], c); }
      Reachable(Next(s, steps[0]), steps[1..]);
    }
  }

  // ---------------------------------------------------------------- the theorems

  /** In every reachable state, under any interleaving: the indices agree, each queue is bounded, each client is
      closed at most once, and what a client has been written or will be is a selection, in order and without
      repeating a broadcast, of what was offered to it. */
  lemma HubInvariants(steps: seq<Step>, c: Client)
    requires Runs(INIT, steps)
    ensures var s := After(INIT, steps);
            var b := Box(s, c);
            && Consistent(s.ix)
            && |b.queue| <= 32 && b.closes <= 1 && (b.closes == 1 <==> b.done)
            && Subsequence(b.written + b.queue, b.offered) && NoRepeats(b.written + b.queue)
            && (c in s.joined && !Registered(s.ix, c) ==> b.done || c in s.closing)
  {
    assert Ok(INIT);
    Reachable(INIT, steps);
    var s := After(INIT, steps);
    var b := Box(s, c);
    assert BoxOk(b);
    forall i, j | 0 <= i < j < |b.written + b.queue|
      ensures (b.written + b.queue)[i].broadcast != (b.written + b.queue)[j].broadcast
    {
      var k, l := SubsequencePositions(b.written + b.queue, b.offered, i, j);
    }
  }

  // The connection does not ask in (again).
  ghost predicate NeverAsks(steps: seq<Step>, c: Client) {
    forall i :: 0 <= i < |steps| ==> steps[i] != Register(c)
  }

  ghost predicate StaysOut(s: State, c: Client) {
    forall steps :: Runs(s, steps) && NeverAsks(steps, c) ==> !Registered(After(s, steps).ix, c)
  }

  lemma {:induction false} OutStaysOut(s: State, steps: seq<Step>, c: Client)
    requires IndexOk(s) && Runs(s, steps) && NeverAsks(steps, c)
    requires !Registered(s.ix, c) && (c !in s.register || s.stopped)
    ensures !Registered(After(s, steps).ix, c)
    decreases |steps|
  {
    if steps != [] {
      var st, rest := steps[0], steps[1..];
      IndexStep(s, st);
      OutStep(s, st, c);
      forall i | 0 <= i < |rest| ensures rest[i] != Register(c) { assert rest[i] == steps[i + 1]; }
      OutStaysOut(Next(s, st), rest, c);
    }
  }

  lemma OutStep(s: State, st: Step, c: Client)
    requires IndexOk(s) && Enabled(s, st) && st != Register(c)
    requires !Registered(s.ix, c) && (c !in s.register || s.stopped)
    ensures var s' := Next(s, st); !Registered(s'.ix, c) && (c !in s'.register || s'.stopped)
  {
    match st {
      case HubAdd => AddKeeps(s.ix, s.register[0]);
      case HubRemove => RemoveKeeps(s.ix, s.unregister[0]);
      case Leave(x) => RemoveKeeps(s.ix, x);
      case Offer(_, x, _) => RemoveKeeps(s.ix, x);
      case _ =>
    }
  }

  // The event loop takes registrations until it has added `c`.
  lemma {:induction false} AddsQueued(s: State, c: Client) returns (steps: seq<Step>)
    requires Consistent(s.ix) && !s.stopped && c in s.register
    ensures Runs(s, steps) && NeverAsks(steps, c) && Registered(After(s, steps).ix, c)
    decreases |s.register|
  {
    AddKeeps(s.ix, s.register[0]);
    var s' := Next(s, HubAdd);
    var rest: seq<Step> := [];
    if s.register[0] != c { rest := AddsQueued(s', c); }
    steps := [HubAdd] + rest;
    assert steps[1..] == rest;
  }

  /** A client that has been removed stays out of the hub, whatever else happens, if and only if its registration
      is not still waiting in the channel of a running hub. (If it is, the hub adds the dead client afterwards.) */
  lemma RemovedStaysOutExactly(s: State, c: Client)
    requires Ok(s)
    ensures var s' := Remove(s, c);
            && !Registered(s'.ix, c) && (Registered(s.ix, c) ==> c in s'.closing)
            && (StaysOut(s', c) <==> c !in s.register || s.stopped)
  {
    RemoveKeeps(s.ix, c);
    RemoveIndexOk(s, c);
    var s' := Remove(s, c);
    if c in s.register && !s.stopped {
      var steps := AddsQueued(s', c);
    } else {
      forall steps | Runs(s', steps) && NeverAsks(steps, c) ensures !Registered(After(s', steps).ix, c) {
        OutStaysOut(s', steps, c);
      }
    }
  }

  // An open client that has not drained its queue.
  predicate IsSlow(b: Outbox) {
    |b.queue| >= 32 && !b.done
  }

  lemma {:induction false} EmptyStaysEmpty(s: State, steps: seq<Step>)
    requires s.stopped && s.ix == NOBODY && Runs(s, steps)
    ensures After(s, steps).ix == NOBODY && After(s, steps).stopped
    decreases |steps|
  {
    if steps != [] { EmptyStaysEmpty(Next(s, steps[0]), steps[1..]); }
  }

  /** A hub that has stopped stays empty, whatever is still queued, and its clients have been shut down or are about to
      be. */
  lemma StoppedStaysEmpty(s: State, steps: seq<Step>, c: Client)
    requires Enabled(s, HubStop) && Runs(Next(s, HubStop), steps)
    ensures After(Next(s, HubStop), steps).ix == NOBODY
    ensures Registered(s.ix, c) ==> c in Next(s, HubStop).closing
  {
    EmptyStaysEmpty(Next(s, HubStop), steps);
    if Registered(s.ix, c) { assert c in s.ix.clients[KeyOf(c)]; }
  }

  // The step takes `c` to be removed: its connection ends, or it is slow.
  ghost predicate TakesOut(s: State, st: Step, c: Client) {
    st == Leave(c) || (st.Offer? && st.c == c && IsSlow(Box(s, c)))
  }

  /** Who is registered after a step: a client goes only by its turn in the unregister channel, with the hub, or inline
      when it leaves or is slow and that channel is full. */
  lemma RegisteredAfter(s: State, st: Step, x: Client)
    requires Consistent(s.ix) && Enabled(s, st)
    ensures Registered(Next(s, st).ix, x) <==>
      || (st == HubAdd && x == s.register[0])
      || (Registered(s.ix, x) && st != HubStop && !(st == HubRemove && x == s.unregister[0])
          && !(TakesOut(s, st, x) && |s.unregister| >= 64))
  {
    match st {
      case HubAdd => AddKeeps(s.ix, s.register[0]);
      case HubRemove => RemoveKeeps(s.ix, s.unregister[0]);
      case Leave(c) => RemoveKeeps(s.ix, c);
      case Offer(_, c, _) => RemoveKeeps(s.ix, c);
      case _ =>
    }
  }

  /** The two channels are queues: what is asked last is served last, and each request once. */
  lemma ChannelsAfter(s: State, st: Step)
    requires Enabled(s, st)
    ensures var s' := Next(s, st);
            && s'.register == (if st.Register? then s.register + [st.c]
                               else if st == HubAdd then s.register[1..] else s.register)
            && s'.unregister == (if (st.Leave? || st.Offer?) && TakesOut(s, st, st.c) && |s.unregister| < 64
                                 then s.unregister + [st.c]
                                 else if st == HubRemove then s.unregister[1..] else s.unregister)
  {
  }

  /** One turn of a delivery: an open client with room gets the message, a full queue stays as it is, and nobody else
      is touched. */
  lemma OfferMeans(s: State, i: nat, c: Client, send: bool, x: Client)
    requires Enabled(s, Offer(i, c, send))
    ensures var s', b, m := Next(s, Offer(i, c, send)), Box(s, c), s.deliveries[i].message;
            var given := b.(queue := b.queue + [m], offered := b.offered + [m]);
            var skipped := b.(offered := b.offered + [m]);
            && (Box(s', c) == given || (Box(s', c) == skipped && (b.done || |b.queue| >= 32)))
            && (Box(s', c) == given ==> |b.queue| < 32)
            && (x != c ==> Box(s', x) == Box(s, x))
            && |s'.deliveries| == |s.deliveries| && s'.deliveries[i].left == s.deliveries[i].left - {c}
  {
  }

  // Never offered anything while its queue is full, its writes succeed, and neither its connection nor the hub ends.
  ghost predicate KeepsUp(s: State, steps: seq<Step>, c: Client)
    requires Runs(s, steps)
    decreases |steps|
  {
    steps == [] ||
    var st := steps[0];
    && !TakesOut(s, st, c) && st != HubStop && st != Write(c, false)
    && KeepsUp(Next(s, st), steps[1..], c)
  }

  // Open, and nothing that was offered to it is missing.
  ghost predicate Complete(b: Outbox) {
    !b.done && !b.exited && b.written + b.queue == b.offered
  }

  ghost predicate Served(s: State, c: Client) {
    Registered(s.ix, c) && c !in s.unregister && c !in s.closing && Complete(Box(s, c))
  }

  lemma CompleteStep(s: State, st: Step, c: Client)
    requires Enabled(s, st) && Complete(Box(s, c)) && c !in s.closing
    requires !TakesOut(s, st, c) && st != Write(c, false)
    ensures Complete(Box(Next(s, st), c))
  {
    var b := Box(s, c);
    match st {
      case Write(x, ok) => if x == c { assert b.written + b.queue == b.written + [b.queue[0]] + b.queue[1..]; }
      case Offer(i, x, send) =>
        OfferMeans(s, i, x, send, c);
        var m := s.deliveries[i].message;
        if x == c { assert b.written + (b.queue + [m]) == b.written + b.queue + [m]; }
      case _ =>
    }
  }

  lemma ClosingStep(s: State, st: Step, c: Client)
    requires Enabled(s, st) && c !in s.unregister && c !in s.closing && !TakesOut(s, st, c) && st != HubStop
    ensures c !in Next(s, st).closing
  {
  }

  lemma ServedStep(s: State, st: Step, c: Client)
    requires Consistent(s.ix) && Enabled(s, st) && Served(s, c)
    requires !TakesOut(s, st, c) && st != HubStop && st != Write(c, false)
    ensures Served(Next(s, st), c)
  {
    RegisteredAfter(s, st, c);
    ChannelsAfter(s, st);
    CompleteStep(s, st, c);
    ClosingStep(s, st, c);
  }

  /** A client that keeps up stays registered and open, and has been written, or has queued, every message offered to
      it, in order, whatever other clients and broadcasts do. */
  lemma {:induction false} FastClientMissesNothing(s: State, steps: seq<Step>, c: Client)
    requires IndexOk(s) && Runs(s, steps) && KeepsUp(s, steps, c) && Served(s, c)
    ensures Served(After(s, steps), c)
    decreases |steps|
  {
    if steps != [] {
      IndexStep(s, steps[0]);
      ServedStep(s, steps[0], c);
      FastClientMissesNothing(Next(s, steps[0]), steps[1..], c);
    }
  }

  /** Once its write pump has seen the end, or a write has failed, a client is written nothing more. */
  lemma NothingAfterTheEnd(s: State, end: Step, steps: seq<Step>, c: Client)
    requires Enabled(s, end) && (end == Quit(c) || end == Write(c, false)) && Runs(Next(s, end), steps)
    ensures Box(After(Next(s, end), steps), c).written == Box(s, c).written
  {
    ExitedStays(Next(s, end), steps, c);
  }

  lemma {:induction false} ExitedStays(s: State, steps: seq<Step>, c: Client)
    requires Runs(s, steps) && Box(s, c).exited
    ensures Box(After(s, steps), c).exited && Box(After(s, steps), c).written == Box(s, c).written
    decreases |steps|
  {
    if steps != [] { ExitedStays(Next(s, steps[0]), steps[1..], c); }
  }

  // ---------------------------------------------------------------- the hub object

  // What offering a message does to an outbox: an open client with room gets one copy, a closed one with room may, and
  // nothing else changes, unless a slow client is removed at once.
  ghost predicate Handed(before: Outbox, after: Outbox, m: Message) {
    var given := before.(queue := before.queue + [m], offered := before.offered + [m]);
    var skipped := before.(offered := before.offered + [m]);
    if |before.queue| < 32 then after == given || (before.done && after == skipped)
    else if before.done then after == skipped
    else after == skipped || after == skipped.(done := true, closes := skipped.closes + 1)
  }

  // In the same sets of both indices.
  ghost predicate SameFor(a: Index, b: Index, c: Client) {
    && (c in Members(a.clients, KeyOf(c)) <==> c in Members(b.clients, KeyOf(c)))
    && (c in Members(a.byWorkspace, c.ws) <==> c in Members(b.byWorkspace, c.ws))
  }

  lemma RemoveSpares(ix: Index, c: Client, x: Client)
    requires x != c
    ensures SameFor(RemoveClient(ix, c).0, ix, x)
  {
    MembersWithout(ix.clients, KeyOf(c), c, KeyOf(x));
    MembersWithout(ix.byWorkspace, c.ws, c, x.ws);
  }

  class Hub {
    var clients: map<UserKey, set<Client>>
    var workspaceClients: map<Uuid, set<Client>>
    var unregister: seq<Client>
    var boxes: map<Client, Outbox>

    ghost function Value(): Index
      reads this
    {
      Index(clients, workspaceClients)
    }

    ghost function BoxOf(c: Client): Outbox
      reads this
    {
      if c in boxes then boxes[c] else FRESH
    }

    constructor ()
      ensures Value() == NOBODY && unregister == [] && boxes == map[]
    {
      clients, workspaceClients, unregister, boxes := map[], map[], [], map[];
    }

    method Add(c: Client)
      modifies this`clients, this`workspaceClients
      ensures Value() == AddClient(old(Value()), c)
    {
      var members := if KeyOf(c) in clients then clients[KeyOf(c)] else {};
      clients := clients[KeyOf(c) := members + {c}];
      var here := if c.ws in workspaceClients then workspaceClients[c.ws] else {};
      workspaceClients := workspaceClients[c.ws := here + {c}];
    }

    method CloseOnce(c: Client)
      modifies this`boxes
      ensures BoxOf(c) == Closed(old(BoxOf(c))) && forall x | x != c :: BoxOf(x) == old(BoxOf(x))
    {
      var b := if c in boxes then boxes[c] else FRESH;
      if !b.done { boxes := boxes[c := b.(done := true, closes := b.closes + 1)]; }
    }

    method Drop(c: Client)
      modifies this`clients, this`workspaceClients, this`boxes
      ensures Value() == RemoveClient(old(Value()), c).0
      ensures BoxOf(c) == (if RemoveClient(old(Value()), c).1 then Closed(old(BoxOf(c))) else old(BoxOf(c)))
      ensures forall x | x != c :: BoxOf(x) == old(BoxOf(x))
    {
      if KeyOf(c) !in clients { return; }
      var members := clients[KeyOf(c)] - {c};
      clients := if members == {} then clients - {KeyOf(c)} else clients[KeyOf(c) := members];
      if c.ws in workspaceClients {
        var here := workspaceClients[c.ws] - {c};
        workspaceClients := if here == {} then workspaceClients - {c.ws} else workspaceClients[c.ws := here];
      }
      CloseOnce(c);
    }

    method CloseAll()
      modifies this
      ensures Value() == NOBODY && unregister == old(unregister)
      ensures forall c :: BoxOf(c) == if c in Everyone(old(Value())) then Closed(old(BoxOf(c))) else old(BoxOf(c))
    {
      var victims := Collect();
      workspaceClients := map[];
      CloseEach(victims);
    }

    method Collect() returns (victims: set<Client>)
      modifies this`clients
      ensures clients == map[] && victims == Everyone(old(Value()))
    {
      victims := {};
      while clients != map[]
        invariant clients.Keys <= old(clients).Keys && (forall k <- clients :: clients[k] == old(clients)[k])
        invariant victims + Everyone(Index(clients, map[])) == Everyone(old(Value()))
        decreases |clients.Keys|
      {
        var k :| k in clients;
        EveryoneLess(clients, k);
        victims := victims + clients[k];
        clients := clients - {k};
      }
    }

    method CloseEach(victims: set<Client>)
      modifies this`boxes
      ensures forall c :: BoxOf(c) == if c in victims then Closed(old(BoxOf(c))) else old(BoxOf(c))
    {
      var todo := victims;
      while todo != {}
        invariant todo <= victims
        invariant forall c :: BoxOf(c) == if c in victims - todo then Closed(old(BoxOf(c))) else old(BoxOf(c))
        decreases |todo|
      {
        var c :| c in todo;
        todo := todo - {c};
        CloseOnce(c);
      }
    }

    method Leave(c: Client)
      modifies this
      ensures |old(unregister)| < 64 ==>
        unregister == old(unregister) + [c] && Value() == old(Value()) && boxes == old(boxes)
      ensures |old(unregister)| >= 64 ==>
        && unregister == old(unregister) && Value() == RemoveClient(old(Value()), c).0
        && BoxOf(c) == (if RemoveClient(old(Value()), c).1 then Closed(old(BoxOf(c))) else old(BoxOf(c)))
      ensures forall x | x != c :: BoxOf(x) == old(BoxOf(x))
      ensures c in unregister || !Registered(Value(), c)
    {
      RemoveShrinks(Value(), c);
      if |unregister| < CHANNEL { unregister := unregister + [c]; } else { Drop(c); }
    }

    /** One broadcast, its snapshot taken: every open target with room gets exactly one copy, a full queue stays
        as it is, a closed target gets at most one, and nobody else's outbox is touched. Slow targets, and they alone,
        are queued for removal, each once, or removed at once. */
    method Deliver(targets: set<Client>, m: Message)
      modifies this
      ensures forall c <- targets :: Handed(old(BoxOf(c)), BoxOf(c), m)
      ensures forall c :: c !in targets ==> BoxOf(c) == old(BoxOf(c))
      ensures forall c <- targets :: IsSlow(old(BoxOf(c))) ==> c in unregister || !Registered(Value(), c)
      ensures forall c :: !(c in targets && IsSlow(old(BoxOf(c)))) ==> SameFor(Value(), old(Value()), c)
      ensures old(unregister) <= unregister && NoTwice(unregister[|old(unregister)|..])
      ensures forall c <- unregister[|old(unregister)|..] :: c in targets && IsSlow(old(BoxOf(c)))
    {
      var todo := targets;
      ghost var queued: seq<Client> := [];
      while todo != {}
        invariant todo <= targets
        invariant forall c :: c in todo || c !in targets ==> BoxOf(c) == old(BoxOf(c))
        invariant forall c <- targets - todo :: Handed(old(BoxOf(c)), BoxOf(c), m)
        invariant forall c <- targets - todo :: IsSlow(old(BoxOf(c))) ==> c in unregister || !Registered(Value(), c)
        invariant forall c :: !(c in targets - todo && IsSlow(old(BoxOf(c)))) ==> SameFor(Value(), old(Value()), c)
        invariant unregister == old(unregister) + queued && NoTwice(queued)
        invariant forall c <- queued :: c in targets - todo && IsSlow(old(BoxOf(c)))
        decreases |todo|
      {
        var c :| c in todo;
        ghost var before := unregister;
        Hand(c, m);
        todo := todo - {c};
        if unregister != before { queued := queued + [c]; }
      }
    }

    // One turn of deliver's select; the choice between a closed client and a free slot is not determined.
    method Hand(c: Client, m: Message)
      modifies this
      ensures Handed(old(BoxOf(c)), BoxOf(c), m)
      ensures forall x | x != c :: BoxOf(x) == old(BoxOf(x)) && SameFor(Value(), old(Value()), x)
      ensures !IsSlow(old(BoxOf(c))) ==> unregister == old(unregister) && Value() == old(Value())
      ensures IsSlow(old(BoxOf(c))) ==>
        || (unregister == old(unregister) + [c] && Value() == old(Value()))
        || (unregister == old(unregister) && !Registered(Value(), c))
    {
      RemoveShrinks(Value(), c);
      forall x | x != c ensures SameFor(RemoveClient(Value(), c).0, Value(), x) { RemoveSpares(Value(), c, x); }
      var b := if c in boxes then boxes[c] else FRESH;
      var send := |b.queue| < SEND_BUFFER;
      if b.done && send { send := *; }
      boxes := boxes[c := Offered(b, m, send)];
      if !send && !b.done { Leave(c); }
    }
  }

  ghost predicate NoTwice(cs: seq<Client>) {
    forall i, j :: 0 <= i < j < |cs| ==> cs[i] != cs[j]
  }

  lemma EveryoneLess(clients: map<UserKey, set<Client>>, k: UserKey)
    requires k in clients
    ensures Everyone(Index(clients, map[])) == clients[k] + Everyone(Index(clients - {k}, map[]))
  {
    forall c | c in Everyone(Index(clients, map[])) ensures c in clients[k] + Everyone(Index(clients - {k}, map[])) {
      var j :| j in clients && c in clients[j];
      if j != k { assert c in (clients - {k})[j]; }
    }
  }
}
