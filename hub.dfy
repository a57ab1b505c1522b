/** The in-memory connection registry of the WebSocket layer
    (internal/infrastructure/ws/hub.go).

    Each case of the `select` in `Hub.Run` is one atomic method of `Hub`:
    `Register`, `Unregister`, `Broadcast` and `Stop` (which runs `cleanup`).
    The dispatch calls `SendToUser`, `SendToProjectMembers` and
    `BroadcastToProject` only touch the outbound buffers of clients.
    A Go panic (closing a closed channel, sending on a closed channel) is a
    precondition of the client operation that would raise it (closing a nil
    channel among them), so verifying the hub proves that none of them is
    raised for clients made by `NewClient`. */
module Ws {
  import opened Text

  /** An outbound frame; the hub never looks inside it. */
  type Payload = seq<byte>

  /** Capacity of every client's outbound channel (`make(chan []byte, 256)`). */
  const SendCapacity: nat := 256

  /** The non-blocking `select { case ch <- m: default: }` on a buffered
      channel holding `queue`: the payload is appended when there is room and
      dropped otherwise. */
  function Deliver(queue: seq<Payload>, m: Payload): seq<Payload> {
    if |queue| < SendCapacity then queue + [m] else queue
  }

  /** `k` non-blocking sends of the same payload, one after the other. */
  function DeliverTimes(queue: seq<Payload>, m: Payload, k: nat): seq<Payload>
    decreases k
  {
    if k == 0 then queue else Deliver(DeliverTimes(queue, m, k - 1), m)
  }

  lemma CountSnoc(s: seq<int>, x: int, u: int)
    ensures multiset(s + [x])[u] == multiset(s)[u] + (if u == x then 1 else 0)
  {
    assert multiset(s + [x]) == multiset(s) + multiset{x};
  }

  function Repeat(m: Payload, k: nat): (r: seq<Payload>)
    ensures |r| == k && forall i :: 0 <= i < k ==> r[i] == m
    decreases k
  {
    if k == 0 then [] else Repeat(m, k - 1) + [m]
  }

  function Min(a: nat, b: nat): nat {
    if a <= b then a else b
  }

  /** A send never blocks and never disturbs what is already queued: the
      buffer keeps its earlier payloads in order, gains `m` exactly when it had
      room, and never grows past the capacity. */
  lemma DeliverKeepsOrder(queue: seq<Payload>, m: Payload)
    requires |queue| <= SendCapacity
    ensures |Deliver(queue, m)| <= SendCapacity
    ensures queue <= Deliver(queue, m)
    ensures |Deliver(queue, m)| == |queue| + 1 <==> |queue| < SendCapacity
  {
  }

  /** `k` sends of `m` append exactly as many copies as there is room for. */
  lemma {:induction false} DeliverTimesFills(queue: seq<Payload>, m: Payload, k: nat)
    requires |queue| <= SendCapacity
    ensures DeliverTimes(queue, m, k) == queue + Repeat(m, Min(k, SendCapacity - |queue|))
    decreases k
  {
    if k > 0 {
      DeliverTimesFills(queue, m, k - 1);
      var n := Min(k - 1, SendCapacity - |queue|);
      var before := queue + Repeat(m, n);
      if |before| < SendCapacity {
        assert n == k - 1 && Min(k, SendCapacity - |queue|) == k;
        assert before + [m] == queue + Repeat(m, k);
      } else {
        assert Min(k, SendCapacity - |queue|) == n;
      }
    }
  }

  /** One connected user (`Client`, hub.go:12-18). `Send` is the contents of
      the buffered outbound channel, oldest first; `SendClosed` and `Done`
      record whether the `Send` and `done` channels have been closed.
      `HasDone` says whether `done` was made at all: a `Client` literal that
      leaves it out has a nil `done`. */
  class Client {
    const UserID: int
    const ProjectID: int
    const HasDone: bool
    var Send: seq<Payload>
    var SendClosed: bool
    var Done: bool

    /** `NewClient`: an open, empty outbound channel and an open `done`. */
    constructor (userID: int, projectID: int)
      ensures UserID == userID && ProjectID == projectID
      ensures Send == [] && !SendClosed && !Done && HasDone
    {
      UserID := userID;
      ProjectID := projectID;
      HasDone := true;
      Send := [];
      SendClosed := false;
      Done := false;
    }

    /** The `&ws.Client{...}` literal of the WebSocket handler
        (ws_handler.go:73-78): an open, empty outbound channel, and no `done`
        channel. */
    constructor Literal(userID: int, projectID: int)
      ensures UserID == userID && ProjectID == projectID
      ensures Send == [] && !SendClosed && !Done && !HasDone
    {
      UserID := userID;
      ProjectID := projectID;
      HasDone := false;
      Send := [];
      SendClosed := false;
      Done := false;
    }

    /** `select { case client.Send <- m: default: }`; a send on a closed
        channel would panic. */
    method TrySend(m: Payload) returns (sent: bool)
      requires !SendClosed
      modifies this`Send
      ensures sent <==> |old(Send)| < SendCapacity
      ensures Send == Deliver(old(Send), m)
    {
      sent := |Send| < SendCapacity;
      if sent {
        Send := Send + [m];
      }
    }

    /** `message, ok := <-client.Send`, as the connection's writer drains the
        channel: the oldest payload first, and `ok == false` only once the
        channel is closed and empty. An empty open channel blocks. */
    method Receive() returns (m: Payload, ok: bool)
      requires Send != [] || SendClosed
      modifies this`Send
      ensures ok <==> old(Send) != []
      ensures ok ==> m == old(Send)[0] && Send == old(Send)[1..]
      ensures !ok ==> m == [] && Send == old(Send)
    {
      if Send == [] {
        m, ok := [], false;
      } else {
        m, ok := Send[0], true;
        Send := Send[1..];
      }
    }

    /** `close(client.Send)`; closing it twice would panic. */
    method CloseSend()
      requires !SendClosed
      modifies this`SendClosed
      ensures SendClosed
    {
      SendClosed := true;
    }

    /** `close(client.done)`; closing it twice, or closing a nil `done`,
        would panic. */
    method CloseDone()
      requires HasDone && !Done
      modifies this`Done
      ensures Done
    {
      Done := true;
    }

    /** What the hub's cleanup does to each client (hub.go:67-78): the
        outbound channel is closed, then `done` unless it already is. A
        receive from a nil `done` never fires, so the `default` branch would
        close it and panic. */
    method Shutdown()
      requires !SendClosed && HasDone
      modifies this`SendClosed, this`Done
      ensures SendClosed && Done
    {
      CloseSend();
      if !Done {
        CloseDone();
      }
    }
  }

  /** Some element of a non-empty set: the order in which Go ranges over a map
      is unspecified. */
  method Pick<T>(s: set<T>) returns (x: T)
    requires s != {}
    ensures x in s
  {
    x :| x in s;
  }

  /** The members of room `p`, or none when the room does not exist. */
  function Room(rooms: map<int, set<Client>>, p: int): set<Client> {
    if p in rooms then rooms[p] else {}
  }

  /** The rooms after `client` joins the room of its project (hub.go:96-104). */
  function JoinRoom(rooms: map<int, set<Client>>, client: Client): map<int, set<Client>> {
    if client.ProjectID == 0 then rooms
    else rooms[client.ProjectID := Room(rooms, client.ProjectID) + {client}]
  }

  /** The rooms after `client` leaves the room of its project, the room being
      deleted when it becomes empty (hub.go:112-119). */
  function LeaveRoom(rooms: map<int, set<Client>>, client: Client): map<int, set<Client>> {
    if client.ProjectID == 0 || client.ProjectID !in rooms then rooms
    else
      var rest := rooms[client.ProjectID] - {client};
      if rest == {} then rooms - {client.ProjectID} else rooms[client.ProjectID := rest]
  }

  /** Every room is non-empty, has a non-zero key, and holds only clients of
      that project. */
  ghost predicate RoomsWellFormed(rooms: map<int, set<Client>>) {
    && (forall p :: p in rooms ==> p != 0 && rooms[p] != {})
    && (forall p, c :: p in rooms && c in rooms[p] ==> c.ProjectID == p)
  }

  /** Joining and leaving keep the room invariant, and leaving removes the
      client from every room. */
  lemma RoomUpdatesKeepWellFormed(rooms: map<int, set<Client>>, client: Client)
    requires RoomsWellFormed(rooms)
    ensures RoomsWellFormed(JoinRoom(rooms, client))
    ensures RoomsWellFormed(LeaveRoom(rooms, client))
    ensures forall p :: p in LeaveRoom(rooms, client) ==> client !in LeaveRoom(rooms, client)[p]
  {
  }

  class Hub {
    var clients: map<int, Client>
    var ProjectRooms: map<int, set<Client>>
    /** The `Run` loop has returned after the stop signal. */
    var Stopped: bool

    ghost function RoomMembers(): set<Client>
      reads this
    {
      set p, c | p in ProjectRooms && c in ProjectRooms[p] :: c
    }

    /** Every client the hub can still send to. */
    ghost function Reachable(): set<Client>
      reads this
    {
      clients.Values + RoomMembers()
    }

    /** The registry invariant: each client is stored under its own user id;
        the rooms are well formed; nothing the hub can reach has a closed
        outbound channel, and registered clients have an open `done`; a
        stopped hub holds nothing. */
    ghost predicate Valid()
      reads this, Reachable()`SendClosed, clients.Values`Done
    {
      && (forall u :: u in clients ==> clients[u].UserID == u)
      && RoomsWellFormed(ProjectRooms)
      && (forall c :: c in Reachable() ==> !c.SendClosed)
      && (forall u :: u in clients ==> !clients[u].Done)
      && (Stopped ==> clients == map[] && ProjectRooms == map[])
    }

    /** Unregistering `client` raises no panic: when its user id is
        registered, its `done` exists and is still open. */
    predicate UnregisterSafe(client: Client)
      reads this, client
    {
      client.UserID in clients ==> client.HasDone && !client.Done
    }

    /** Cleaning up raises no panic: every registered client has a `done`. */
    predicate CleanupSafe()
      reads this, clients.Values
    {
      forall u :: u in clients ==> clients[u].HasDone
    }

    /** `NewHub` */
    constructor ()
      ensures Valid() && !Stopped
      ensures clients == map[] && ProjectRooms == map[]
    {
      clients := map[];
      ProjectRooms := map[];
      Stopped := false;
    }

    /** The `Register` case (hub.go:91-106): the client is stored under its
        user id, replacing any earlier entry, and joins its project's room
        when its project id is non-zero. A stopped hub never receives it. */
    method Register(client: Client)
      requires Valid()
      requires !client.SendClosed && !client.Done
      modifies this
      ensures Valid() && Stopped == old(Stopped)
      ensures old(Stopped) ==> clients == old(clients) && ProjectRooms == old(ProjectRooms)
      ensures !old(Stopped) ==> clients == old(clients)[client.UserID := client]
      ensures !old(Stopped) ==> ProjectRooms == JoinRoom(old(ProjectRooms), client)
    {
      if Stopped {
        return;
      }
      RoomUpdatesKeepWellFormed(ProjectRooms, client);
      clients := clients[client.UserID := client];
      if client.ProjectID != 0 {
        ProjectRooms := ProjectRooms[client.ProjectID := Room(ProjectRooms, client.ProjectID) + {client}];
      }
    }

    /** The `Unregister` case (hub.go:108-125). When some client is stored
        under `client.UserID`, `client` leaves its room (the room going away
        when emptied), the entry for that user id is deleted and `client`'s
        `done` is closed. Otherwise nothing changes, so a repeated unregister
        is a no-op. Closing `done` a second time would panic. */
    method Unregister(client: Client)
      requires Valid() && UnregisterSafe(client)
      modifies this, client`Done
      ensures Valid() && Stopped == old(Stopped)
      ensures client.UserID !in old(clients) ==>
        clients == old(clients) && ProjectRooms == old(ProjectRooms) && client.Done == old(client.Done)
      ensures client.UserID in old(clients) ==>
        && clients == old(clients) - {client.UserID}
        && ProjectRooms == LeaveRoom(old(ProjectRooms), client)
        && client.Done
    {
      if client.UserID in clients {
        RoomUpdatesKeepWellFormed(ProjectRooms, client);
        if client.ProjectID != 0 {
          if client.ProjectID in ProjectRooms {
            var room := ProjectRooms[client.ProjectID] - {client};
            if room == {} {
              ProjectRooms := ProjectRooms - {client.ProjectID};
            } else {
              ProjectRooms := ProjectRooms[client.ProjectID := room];
            }
          }
        }
        clients := clients - {client.UserID};
        client.CloseDone();
      }
    }

    /** The `Broadcast` case (hub.go:127-136): every registered client,
        whatever its room, gets the payload unless its buffer is full. */
    method Broadcast(m: Payload)
      requires Valid()
      modifies clients.Values`Send
      ensures Valid()
      ensures forall u :: u in clients ==> clients[u].Send == Deliver(old(clients[u].Send), m)
    {
      var todo: set<int> := clients.Keys;
      while todo != {}
        invariant todo <= clients.Keys
        invariant Valid()
        invariant forall u :: u in clients ==>
          clients[u].Send == if u in todo then old(clients[u].Send) else Deliver(old(clients[u].Send), m)
        decreases todo
      {
        var u := Pick(todo);
        var _ := clients[u].TrySend(m);
        todo := todo - {u};
      }
    }

    /** `SendToUser` (hub.go:154-163): the client registered under `userID`
        gets the payload unless its buffer is full; nobody else is touched, and
        an unknown user id is a no-op. */
    method SendToUser(userID: int, m: Payload)
      requires Valid()
      modifies clients.Values`Send
      ensures Valid()
      ensures forall u :: u in clients ==>
        clients[u].Send == if u == userID then Deliver(old(clients[u].Send), m) else old(clients[u].Send)
    {
      if userID in clients {
        var _ := clients[userID].TrySend(m);
      }
    }

    /** `SendToProjectMembers` (hub.go:165-176): one non-blocking send per
        listed id, so a client listed k times receives up to k copies. */
    method SendToProjectMembers(userIDs: seq<int>, m: Payload)
      requires Valid()
      modifies clients.Values`Send
      ensures Valid()
      ensures forall u :: u in clients ==>
        clients[u].Send == DeliverTimes(old(clients[u].Send), m, multiset(userIDs)[u])
    {
      for i := 0 to |userIDs|
        invariant Valid()
        invariant forall u :: u in clients ==>
          clients[u].Send == DeliverTimes(old(clients[u].Send), m, multiset(userIDs[..i])[u])
      {
        var id := userIDs[i];
        assert userIDs[..i + 1] == userIDs[..i] + [id];
        label before:
        if id in clients {
          var c := clients[id];
          assert forall u :: u in clients && u != id ==> clients[u] != c;
          var _ := c.TrySend(m);
        }
        forall u | u in clients
          ensures clients[u].Send == DeliverTimes(old(clients[u].Send), m, multiset(userIDs[..i + 1])[u])
        {
          CountSnoc(userIDs[..i], id, u);
          assert clients[u].Send == if u == id then Deliver(old@before(clients[u].Send), m) else old@before(clients[u].Send);
        }
      }
      assert userIDs[..|userIDs|] == userIDs;
    }

    /** `BroadcastToProject` (hub.go:178-190): exactly the members of room
        `projectID` get the payload unless their buffer is full; a missing
        room is a no-op and clients outside the room are untouched. */
    method BroadcastToProject(projectID: int, m: Payload)
      requires Valid()
      modifies Room(ProjectRooms, projectID)`Send
      ensures Valid()
      ensures forall c :: c in Room(ProjectRooms, projectID) ==> c.Send == Deliver(old(c.Send), m)
      ensures forall u :: u in clients && clients[u] !in Room(ProjectRooms, projectID) ==>
        clients[u].Send == old(clients[u].Send)
    {
      if projectID in ProjectRooms {
        var room: set<Client> := ProjectRooms[projectID];
        var todo: set<Client> := room;
        while todo != {}
          invariant todo <= room
          invariant Valid()
          invariant forall c :: c in room ==> c.Send == if c in todo then old(c.Send) else Deliver(old(c.Send), m)
          decreases todo
        {
          var c := Pick(todo);
          assert c in RoomMembers();
          var _ := c.TrySend(m);
          todo := todo - {c};
        }
      }
    }

    /** `cleanup` (hub.go:61-86): every registered client gets its outbound
        channel closed and, unless already closed, its `done` closed; the
        registry ends empty and the rooms are reset. */
    method Cleanup()
      requires Valid() && CleanupSafe()
      modifies this`clients, this`ProjectRooms, clients.Values`SendClosed, clients.Values`Done
      ensures Valid() && Stopped == old(Stopped)
      ensures clients == map[] && ProjectRooms == map[]
      ensures forall u :: u in old(clients) ==> old(clients)[u].SendClosed && old(clients)[u].Done
    {
      var todo := clients.Keys;
      while todo != {}
        invariant clients == old(clients) && ProjectRooms == old(ProjectRooms)
        invariant todo <= clients.Keys
        invariant forall u :: u in clients ==> clients[u].UserID == u && clients[u].HasDone
        invariant forall u :: u in clients ==>
          if u in todo then !clients[u].SendClosed && !clients[u].Done else clients[u].SendClosed && clients[u].Done
        decreases todo
      {
        var u := Pick(todo);
        var client := clients[u];
        assert forall v :: v in clients && v != u ==> clients[v] != client;
        client.Shutdown();
        todo := todo - {u};
      }
      // Each entry is deleted as it is closed in the source; clearing the map
      // once every client is closed leaves the same state.
      clients := map[];
      ProjectRooms := map[];
    }

    /** `Stop` followed by the Run loop's stop case (hub.go:57-59, 138-141):
        the hub is cleaned up and stops servicing events. Closing the stop
        channel a second time would panic. */
    method Stop()
      requires Valid() && CleanupSafe() && !Stopped
      modifies this, clients.Values`SendClosed, clients.Values`Done
      ensures Valid() && Stopped
      ensures clients == map[] && ProjectRooms == map[]
      ensures forall u :: u in old(clients) ==> old(clients)[u].SendClosed && old(clients)[u].Done
    {
      Cleanup();
      Stopped := true;
    }
  }

  /** What the WebSocket handler does with a new connection
      (ws_handler.go:73-80), as written: it registers a client built as a
      literal, without `done`. Once registered, the unregister the handler
      defers, or a cleanup of the hub, would close a nil channel and panic. */
  method HandlerConnect(h: Hub, userID: int, projectID: int) returns (c: Client)
    requires h.Valid()
    modifies h
    ensures h.Valid() && h.Stopped == old(h.Stopped)
    ensures c.UserID == userID && c.ProjectID == projectID && !c.HasDone
    ensures !old(h.Stopped) ==> h.clients == old(h.clients)[userID := c]
    ensures !old(h.Stopped) ==> !h.UnregisterSafe(c) && !h.CleanupSafe()
  {
    c := new Client.Literal(userID, projectID);
    h.Register(c);
  }

  /** The same connection built with `NewClient`: it registers, and the
      deferred unregister removes its entry and closes its `done` without a
      panic, leaving every other registration as it was. */
  method NewClientSession(h: Hub, userID: int, projectID: int) returns (c: Client)
    requires h.Valid()
    modifies h
    ensures h.Valid() && h.Stopped == old(h.Stopped)
    ensures c.UserID == userID && c.ProjectID == projectID && c.HasDone
    ensures !old(h.Stopped) ==> h.clients == old(h.clients) - {userID} && c.Done
    ensures old(h.Stopped) ==> h.clients == old(h.clients) && !c.Done
  {
    c := new Client(userID, projectID);
    h.Register(c);
    h.Unregister(c);
  }
}
