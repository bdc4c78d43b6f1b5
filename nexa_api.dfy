/** The hub client of package `nexa` (nexa/nexa.go): framing of event
    messages read from the websocket, and the post-processing of the REST
    answers once they are decoded — every node's last events are stamped
    with the node's id, and rooms receive their nodes through a room-id to
    index map. The HTTP round trips and the JSON decoder are parameters:
    a call gets the response (or the transport error) and what the body
    decodes to. */
module NexaApi {
  import opened Results
  import opened GoStrings
  import opened NexaTypes

  /* ---------------- Event frames ---------------- */

  /** The websocket frame with its leading run of characters other than
      '{' removed (the regular expression `^[^{]+` replaced by nothing):
      what is left is empty or starts at the first '{', and everything
      from that '{' on is kept as it was. */
  function StripPreamble(frame: string): (r: string)
    ensures |r| <= |frame| && r == frame[|frame| - |r|..]
    ensures '{' !in frame[..|frame| - |r|]
    ensures r == [] || r[0] == '{'
  {
    frame[IndexOf(frame, '{')..]
  }

  /** Removing the preamble a second time changes nothing. */
  lemma StripPreambleIdempotent(frame: string)
    ensures StripPreamble(StripPreamble(frame)) == StripPreamble(frame)
  {
    var r := StripPreamble(frame);
    if r != [] {
      assert IndexOf(r, '{') == 0;
    }
  }

  /** ParseMessage: the frame without its preamble, decoded. */
  function ParseMessage(decode: MessageDecoder, frame: string): (r: Result<Message, string>)
    ensures '{' !in frame ==> r.Err?
  {
    assert '{' !in frame ==> IndexOf(frame, '{') == |frame|;
    decode(StripPreamble(frame))
  }

  /** A frame is decoded from its first '{' on, whatever comes before it. */
  lemma {:induction false} ParseMessageIgnoresPreamble(decode: MessageDecoder, preamble: string, body: string)
    requires '{' !in preamble
    requires body == [] || body[0] == '{'
    ensures ParseMessage(decode, preamble + body) == decode(body)
    decreases |preamble|
  {
    IndexOfAfterFree(preamble, body, '{');
    assert (preamble + body)[|preamble|..] == body;
  }

  /* ---------------- Nodes and their events ---------------- */

  /** An entry of a node's `lastEvents`; only `nodeId` is ever written
      after decoding. */
  class NexaEvent {
    var nodeId: string
    const name: string
    const value: Value
    const prevValue: Value
    const time: Timestamp

    constructor(name: string, value: Value, prevValue: Value, time: Timestamp)
      ensures nodeId == "" && this.name == name && this.value == value
      ensures this.prevValue == prevValue && this.time == time
    {
      nodeId := "";
      this.name := name;
      this.value := value;
      this.prevValue := prevValue;
      this.time := time;
    }
  }

  /** A node as decoded; its events are shared by reference. */
  class NexaNode {
    const id: string
    const name: string
    const roomId: string
    const capabilities: seq<string>
    const lastEvents: map<string, NexaEvent>

    constructor(id: string, name: string, roomId: string, capabilities: seq<string>, lastEvents: map<string, NexaEvent>)
      ensures this.id == id && this.name == name && this.roomId == roomId
      ensures this.capabilities == capabilities && this.lastEvents == lastEvents
    {
      this.id := id;
      this.name := name;
      this.roomId := roomId;
      this.capabilities := capabilities;
      this.lastEvents := lastEvents;
    }
  }

  /** Every event some node of the list holds. */
  ghost function EventsOf(nodes: seq<NexaNode>): set<NexaEvent> {
    set i, e | 0 <= i < |nodes| && e in nodes[i].lastEvents.Values :: e
  }

  /** No node after position `i` holds `e`. */
  ghost predicate LastHolder(nodes: seq<NexaNode>, i: int, e: NexaEvent) {
    forall j :: 0 <= j < |nodes| && i < j ==> e !in nodes[j].lastEvents.Values
  }

  /** Different nodes hold different events (as fresh decoding gives). */
  ghost predicate Unshared(nodes: seq<NexaNode>) {
    forall i, j :: 0 <= i < j < |nodes| ==> nodes[i].lastEvents.Values !! nodes[j].lastEvents.Values
  }

  /** Every event carries the id of the last node in the list that holds
      it. */
  ghost predicate Stamped(nodes: seq<NexaNode>)
    reads EventsOf(nodes)
  {
    forall i, e :: 0 <= i < |nodes| && e in nodes[i].lastEvents.Values && LastHolder(nodes, i, e) ==>
      e.nodeId == nodes[i].id
  }

  /** When no two nodes share an event, every event carries the id of the
      node it belongs to. */
  lemma StampedOwnEvents(nodes: seq<NexaNode>, i: int, e: NexaEvent)
    requires Unshared(nodes) && Stamped(nodes)
    requires 0 <= i < |nodes| && e in nodes[i].lastEvents.Values
    ensures e.nodeId == nodes[i].id
  {
    forall j | i < j < |nodes| ensures e !in nodes[j].lastEvents.Values {
      assert nodes[i].lastEvents.Values !! nodes[j].lastEvents.Values;
    }
  }

  /** The stamping loop of `Node`: each event of the node gets the node's
      id; nothing else is written. */
  method StampEvents(node: NexaNode)
    modifies node.lastEvents.Values
    ensures forall e :: e in node.lastEvents.Values ==> e.nodeId == node.id
  {
    var pending := node.lastEvents.Keys;
    while pending != {}
      invariant pending <= node.lastEvents.Keys
      invariant forall k :: k in node.lastEvents.Keys && k !in pending ==> node.lastEvents[k].nodeId == node.id
      decreases pending
    {
      var k :| k in pending;
      node.lastEvents[k].nodeId := node.id;
      pending := pending - {k};
    }
  }

  /** The stamping loops of `Nodes`: node by node, in list order, so an
      event held by several nodes ends up with the last one's id. */
  method StampAll(nodes: seq<NexaNode>)
    modifies EventsOf(nodes)
    ensures Stamped(nodes)
  {
    var n := 0;
    while n < |nodes|
      invariant 0 <= n <= |nodes|
      invariant forall i, e :: 0 <= i < n && e in nodes[i].lastEvents.Values && LastHolder(nodes[..n], i, e) ==>
        e.nodeId == nodes[i].id
    {
      assert forall e :: e in nodes[n].lastEvents.Values ==> e in EventsOf(nodes);
      StampEvents(nodes[n]);
      forall i, e | 0 <= i < n + 1 && e in nodes[i].lastEvents.Values && LastHolder(nodes[..n + 1], i, e)
        ensures e.nodeId == nodes[i].id
      {
        if i < n {
          assert e !in nodes[n].lastEvents.Values by {
            assert nodes[..n + 1][n] == nodes[n];
          }
          assert LastHolder(nodes[..n], i, e) by {
            forall j | i < j < n ensures e !in nodes[..n][j].lastEvents.Values {
              assert nodes[..n][j] == nodes[..n + 1][j];
            }
          }
        }
      }
      n := n + 1;
    }
    assert nodes[..n] == nodes;
  }

  /** The decoded nodes of one node answer, or nothing. */
  ghost function EventsOfAnswer(decoded: Result<seq<NexaNode>, string>): set<NexaEvent> {
    if decoded.Ok? then EventsOf(decoded.value) else {}
  }

  /** NexaService.Nodes, once the response is in: refused unless the
      status is 200 and the body decodes, then every event is stamped. */
  method Nodes(resp: Result<HttpResponse, string>, decoded: Result<seq<NexaNode>, string>)
    returns (r: Result<seq<NexaNode>, FetchError>)
    modifies EventsOfAnswer(decoded)
    ensures r == CheckStatus(resp, decoded)
    ensures r.Ok? ==> Stamped(r.value)
    ensures r.Err? ==> unchanged(EventsOfAnswer(decoded))
  {
    r := CheckStatus(resp, decoded);
    if r.Ok? {
      StampAll(r.value);
    }
  }

  /** NexaService.Node, once the response is in: refused unless the
      status is 200 and the body decodes, then the node's events are
      stamped with its id. */
  method Node(resp: Result<HttpResponse, string>, decoded: Result<NexaNode, string>)
    returns (r: Result<NexaNode, FetchError>)
    modifies if decoded.Ok? then decoded.value.lastEvents.Values else {}
    ensures r == CheckStatus(resp, decoded)
    ensures r.Ok? ==> forall e :: e in r.value.lastEvents.Values ==> e.nodeId == r.value.id
    ensures r.Err? && decoded.Ok? ==> unchanged(decoded.value.lastEvents.Values)
  {
    r := CheckStatus(resp, decoded);
    if r.Ok? {
      StampEvents(r.value);
    }
  }

  /* ---------------- Rooms ---------------- */

  /** A room as decoded, with the nodes the join appends. */
  datatype NexaRoom = NexaRoom(
    id: string,
    name: string,
    tempSensor: string,
    backgroundImage: string,
    nodes: seq<NexaNode>)

  /** The `roomIds` map: each room id to the position of the LAST room
      with that id. */
  function RoomIndex(rooms: seq<NexaRoom>): (m: map<string, nat>)
    ensures forall id :: id in m <==> exists i :: 0 <= i < |rooms| && rooms[i].id == id
    ensures forall id :: id in m ==> m[id] < |rooms| && rooms[m[id]].id == id
    ensures forall id, j :: id in m && m[id] < j < |rooms| ==> rooms[j].id != id
  {
    if |rooms| == 0 then map[]
    else
      var init := rooms[..|rooms| - 1];
      var m0 := RoomIndex(init);
      assert forall i :: 0 <= i < |init| ==> init[i] == rooms[i];
      m0[rooms[|rooms| - 1].id := |rooms| - 1]
  }

  /** `roomIds[node.RoomId]`: Go reads a missing key as 0. */
  function RoomSlot(roomIds: map<string, nat>, roomId: string): nat {
    if roomId in roomIds then roomIds[roomId] else 0
  }

  /** Node `k` is appended to room `room`. */
  predicate JoinsRoom(nodes: seq<NexaNode>, roomIds: map<string, nat>, k: int, room: nat)
    requires 0 <= k < |nodes|
  {
    nodes[k].roomId != "" && RoomSlot(roomIds, nodes[k].roomId) == room
  }

  /** The positions of the nodes that go to room `room`, in list order. */
  function Slots(nodes: seq<NexaNode>, roomIds: map<string, nat>, room: nat): (r: seq<nat>)
    ensures forall j :: 0 <= j < |r| ==> r[j] < |nodes|
    ensures forall k :: k in r <==> 0 <= k < |nodes| && JoinsRoom(nodes, roomIds, k, room)
    ensures forall a, b :: 0 <= a < b < |r| ==> r[a] < r[b]
  {
    if |nodes| == 0 then []
    else
      var n := |nodes| - 1;
      var init := nodes[..n];
      var r0 := Slots(init, roomIds, room);
      assert forall k :: 0 <= k < n ==> (JoinsRoom(init, roomIds, k, room) <==> JoinsRoom(nodes, roomIds, k, room));
      r0 + (if JoinsRoom(nodes, roomIds, n, room) then [n] else [])
  }

  /** The nodes the join appends to room `room`, in list order. */
  function NodesFor(nodes: seq<NexaNode>, roomIds: map<string, nat>, room: nat): seq<NexaNode> {
    if |nodes| == 0 then []
    else
      var n := |nodes| - 1;
      NodesFor(nodes[..n], roomIds, room) + (if JoinsRoom(nodes, roomIds, n, room) then [nodes[n]] else [])
  }

  /** The nodes a room receives are exactly the nodes at its slots, in
      order: each node with a room id lands in exactly one room, once,
      and a node without one lands nowhere. */
  lemma {:induction false} NodesForSlots(nodes: seq<NexaNode>, roomIds: map<string, nat>, room: nat)
    ensures |NodesFor(nodes, roomIds, room)| == |Slots(nodes, roomIds, room)|
    ensures forall j :: 0 <= j < |NodesFor(nodes, roomIds, room)| ==>
      NodesFor(nodes, roomIds, room)[j] == nodes[Slots(nodes, roomIds, room)[j]]
    decreases |nodes|
  {
    if |nodes| > 0 {
      var n := |nodes| - 1;
      var init := nodes[..n];
      NodesForSlots(init, roomIds, room);
      var a := NodesFor(init, roomIds, room);
      var slots := Slots(init, roomIds, room);
      var joins := JoinsRoom(nodes, roomIds, n, room);
      assert NodesFor(nodes, roomIds, room) == a + (if joins then [nodes[n]] else []);
      assert Slots(nodes, roomIds, room) == slots + (if joins then [n] else []);
      forall j | 0 <= j < |a| ensures a[j] == nodes[slots[j]] {
        assert init[slots[j]] == nodes[slots[j]];
      }
    }
  }

  /** One more node in the list adds it, or nothing, to a room's nodes. */
  lemma NodesForStep(nodes: seq<NexaNode>, roomIds: map<string, nat>, k: int, room: nat)
    requires 0 <= k < |nodes|
    ensures NodesFor(nodes[..k + 1], roomIds, room)
      == NodesFor(nodes[..k], roomIds, room) + (if JoinsRoom(nodes, roomIds, k, room) then [nodes[k]] else [])
  {
    var p := nodes[..k + 1];
    assert p[..k] == nodes[..k];
    assert p[k] == nodes[k];
  }

  /** A node whose room id matches no room goes to room 0. */
  lemma UnknownRoomGoesFirst(rooms: seq<NexaRoom>, nodes: seq<NexaNode>, k: int)
    requires 0 <= k < |nodes| && nodes[k].roomId != ""
    requires forall i :: 0 <= i < |rooms| ==> rooms[i].id != nodes[k].roomId
    ensures k in Slots(nodes, RoomIndex(rooms), 0)
    ensures forall room :: room != 0 ==> k !in Slots(nodes, RoomIndex(rooms), room)
  {
  }

  /** When room ids repeat, the nodes of that id go to the last room that
      has it, and none to the earlier ones. */
  lemma DuplicateRoomLastWins(rooms: seq<NexaRoom>, nodes: seq<NexaNode>, k: int, i: int, j: int)
    requires 0 <= k < |nodes| && nodes[k].roomId != ""
    requires 0 <= i < j < |rooms| && rooms[i].id == rooms[j].id == nodes[k].roomId
    requires forall l :: j < l < |rooms| ==> rooms[l].id != rooms[j].id
    ensures k in Slots(nodes, RoomIndex(rooms), j)
    ensures k !in Slots(nodes, RoomIndex(rooms), i)
  {
    var m := RoomIndex(rooms);
    assert nodes[k].roomId in m;
    assert m[nodes[k].roomId] == j;
  }

  /** Two rooms "r1" and "r2", a node in "r1" and a node with no room:
      the first room gets the first node, the second room nothing, and the
      roomless node is in no room. */
  lemma TwoRoomsExample(r1: NexaRoom, r2: NexaRoom, n1: NexaNode, n2: NexaNode)
    requires r1.id == "r1" && r2.id == "r2"
    requires n1.roomId == "r1" && n2.roomId == ""
    ensures NodesFor([n1, n2], RoomIndex([r1, r2]), 0) == [n1]
    ensures NodesFor([n1, n2], RoomIndex([r1, r2]), 1) == []
    ensures forall room :: 1 !in Slots([n1, n2], RoomIndex([r1, r2]), room)
  {
    var m := RoomIndex([r1, r2]);
    assert [r1, r2][0].id == "r1";
    assert RoomSlot(m, "r1") == 0;
    var nodes := [n1, n2];
    assert nodes[..1] == [n1];
    assert [n1][..0] == [];
    assert !JoinsRoom(nodes, m, 1, 0) && !JoinsRoom(nodes, m, 1, 1);
    assert JoinsRoom([n1], m, 0, 0) && !JoinsRoom([n1], m, 0, 1);
    assert NodesFor([n1], m, 0) == [n1];
    assert NodesFor([n1], m, 1) == [];
  }

  /** With a non-empty room list every slot is a valid position; with an
      empty one every node with a room id falls on position 0. */
  lemma RoomSlotInRange(rooms: seq<NexaRoom>, roomId: string)
    ensures |rooms| > 0 ==> RoomSlot(RoomIndex(rooms), roomId) < |rooms|
    ensures |rooms| == 0 ==> RoomSlot(RoomIndex(rooms), roomId) == 0
  {
  }

  /** A room after the join: the same room with the given nodes added. */
  function WithNodes(room: NexaRoom, added: seq<NexaNode>): NexaRoom {
    room.(nodes := room.nodes + added)
  }

  /** The loop that fills `roomIds`: later rooms overwrite earlier ones
      with the same id. */
  method BuildRoomIndex(rooms: array<NexaRoom>) returns (roomIds: map<string, nat>)
    ensures roomIds == RoomIndex(rooms[..])
  {
    roomIds := map[];
    var i := 0;
    while i < rooms.Length
      invariant 0 <= i <= rooms.Length
      invariant roomIds == RoomIndex(rooms[..i])
    {
      assert rooms[..i + 1][..i] == rooms[..i];
      roomIds := roomIds[rooms[i].id := i];
      i := i + 1;
    }
    assert rooms[..i] == rooms[..];
  }

  /** Indexing `rooms[roomIndex]` with no room there panics. */
  datatype JoinError = IndexOutOfRange(index: int, length: int)

  /** Some node names a room. */
  predicate AnyRoomed(nodes: seq<NexaNode>) {
    exists k :: 0 <= k < |nodes| && nodes[k].roomId != ""
  }

  /** The join in `Rooms`: build `roomIds`, then append every node that
      names a room to `rooms[roomIds[node.RoomId]]`. Room positions, ids,
      names and other fields stay; only the node lists grow. The only way
      to fail is an empty room list with a node that names a room. */
  method JoinRooms(rooms: array<NexaRoom>, nodes: seq<NexaNode>) returns (err: Option<JoinError>)
    modifies rooms
    ensures err.Some? <==> rooms.Length == 0 && AnyRoomed(nodes)
    ensures err.Some? ==> err.value == IndexOutOfRange(0, 0)
    ensures err.None? ==> forall i :: 0 <= i < rooms.Length ==>
      rooms[i] == WithNodes(old(rooms[i]), NodesFor(nodes, RoomIndex(old(rooms[..])), i))
  {
    var roomIds := BuildRoomIndex(rooms);
    forall id ensures RoomSlot(roomIds, id) < rooms.Length || (rooms.Length == 0 && RoomSlot(roomIds, id) == 0) {
      RoomSlotInRange(rooms[..], id);
    }
    err := AppendAll(rooms, roomIds, nodes);
  }

  /** The append loop of the join, for any index map. It stops at the
      first node whose slot is past the end of the room list. */
  method AppendAll(rooms: array<NexaRoom>, roomIds: map<string, nat>, nodes: seq<NexaNode>) returns (err: Option<JoinError>)
    modifies rooms
    ensures err.Some? <==> exists k :: 0 <= k < |nodes| && nodes[k].roomId != "" && RoomSlot(roomIds, nodes[k].roomId) >= rooms.Length
    ensures err.Some? ==> exists k :: 0 <= k < |nodes| && nodes[k].roomId != "" && err.value == IndexOutOfRange(RoomSlot(roomIds, nodes[k].roomId), rooms.Length)
    ensures err.None? ==> forall i :: 0 <= i < rooms.Length ==>
      rooms[i] == WithNodes(old(rooms[i]), NodesFor(nodes, roomIds, i))
  {
    var k := 0;
    while k < |nodes|
      invariant 0 <= k <= |nodes|
      invariant forall j :: 0 <= j < k && nodes[j].roomId != "" ==> RoomSlot(roomIds, nodes[j].roomId) < rooms.Length
      invariant forall r :: 0 <= r < rooms.Length ==> rooms[r] == WithNodes(old(rooms[r]), NodesFor(nodes[..k], roomIds, r))
    {
      var node := nodes[k];
      forall r | 0 <= r < rooms.Length
        ensures NodesFor(nodes[..k + 1], roomIds, r)
          == NodesFor(nodes[..k], roomIds, r) + (if JoinsRoom(nodes, roomIds, k, r) then [nodes[k]] else [])
      {
        NodesForStep(nodes, roomIds, k, r);
      }
      if node.roomId != "" {
        var index := RoomSlot(roomIds, node.roomId);
        if index >= rooms.Length {
          return Some(IndexOutOfRange(index, rooms.Length));
        }
        AppendNode(rooms, index, node);
      }
      k := k + 1;
    }
    assert nodes[..k] == nodes;
    err := None;
  }

  /** `rooms[index].Nodes = append(rooms[index].Nodes, node)` */
  method AppendNode(rooms: array<NexaRoom>, index: int, node: NexaNode)
    requires 0 <= index < rooms.Length
    modifies rooms
    ensures rooms[index] == WithNodes(old(rooms[index]), [node])
    ensures forall r :: 0 <= r < rooms.Length && r != index ==> rooms[r] == old(rooms[r])
  {
    rooms[index] := rooms[index].(nodes := rooms[index].nodes + [node]);
  }

  /** Why `Rooms` gave no rooms. */
  datatype RoomsError =
    | Fetch(cause: FetchError)      // the rooms call or the nested nodes call failed
    | Join(join: JoinError)         // the join indexed past the room list (a panic)

  /** NexaService.Rooms, once both answers are in: the rooms answer is
      checked, then the nodes are fetched (and stamped) as `Nodes` does,
      then joined into the rooms in place. */
  method Rooms(
    roomsResp: Result<HttpResponse, string>, roomsDecoded: Result<array<NexaRoom>, string>,
    nodesResp: Result<HttpResponse, string>, nodesDecoded: Result<seq<NexaNode>, string>)
    returns (r: Result<array<NexaRoom>, RoomsError>)
    modifies if roomsDecoded.Ok? then {roomsDecoded.value} else {}
    modifies EventsOfAnswer(nodesDecoded)
    ensures CheckStatus(roomsResp, roomsDecoded).Err? ==>
      r == Err(Fetch(CheckStatus(roomsResp, roomsDecoded).error)) && unchanged(EventsOfAnswer(nodesDecoded))
    ensures CheckStatus(roomsResp, roomsDecoded).Ok? && CheckStatus(nodesResp, nodesDecoded).Err? ==>
      r == Err(Fetch(CheckStatus(nodesResp, nodesDecoded).error))
    ensures CheckStatus(roomsResp, roomsDecoded).Ok? && CheckStatus(nodesResp, nodesDecoded).Ok? ==>
      var rooms := roomsDecoded.value;
      var nodes := nodesDecoded.value;
      Stamped(nodes) &&
      (r.Err? <==> rooms.Length == 0 && AnyRoomed(nodes)) &&
      (r.Err? ==> r.error == Join(IndexOutOfRange(0, 0))) &&
      (r.Ok? ==> r.value == rooms && forall i :: 0 <= i < rooms.Length ==>
        rooms[i] == WithNodes(old(rooms[i]), NodesFor(nodes, RoomIndex(old(rooms[..])), i)))
  {
    var checked := CheckStatus(roomsResp, roomsDecoded);
    if checked.Err? {
      return Err(Fetch(checked.error));
    }
    var rooms := checked.value;
    var fetched := Nodes(nodesResp, nodesDecoded);
    if fetched.Err? {
      return Err(Fetch(fetched.error));
    }
    var nodes := fetched.value;
    var err := JoinRooms(rooms, nodes);
    if err.Some? {
      return Err(Join(err.value));
    }
    r := Ok(rooms);
  }
}
