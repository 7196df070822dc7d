/**
 * The signaling server: rooms of peers that share an address group. Every critical section of
 * `ws_controller.rs` is one event; the messages it decides to send are letters in lock order.
 */
module Rooms {
  import opened Prelude

  /** A UUID. */
  newtype PeerId = x: int | 0 <= x < 0x1_0000_0000_0000_0000_0000_0000_0000_0000

  type Group = string

  datatype DeviceType = Mobile | Desktop | Web | Headless | Server

  /** `ClientInfoWithoutId`. */
  datatype Info = Info(alias: string, version: string, deviceModel: Option<string>, deviceType: Option<DeviceType>, token: string)

  /** `ClientInfo`. */
  datatype Client = Client(id: PeerId, info: Info)

  type Room = map<PeerId, Info>

  /** A Hello carries the room found at connect, read as a map from id to info. */
  datatype ServerMessage =
    | Hello(client: Client, peers: Room)
    | Join(peer: Client)
    | Update(peer: Client)
    | Left(peerId: PeerId)
    | Offer(origin: Client, sessionId: string, sdp: string)
    | Answer(origin: Client, sessionId: string, sdp: string)
    | Error(code: nat)

  /** What a client asks the server to pass on. */
  datatype ClientSdp =
    | ClientOffer(target: PeerId, sessionId: string, sdp: string)
    | ClientAnswer(target: PeerId, sessionId: string, sdp: string)

  function Forwarded(origin: Client, m: ClientSdp): ServerMessage {
    match m
    case ClientOffer(_, sessionId, sdp) => Offer(origin, sessionId, sdp)
    case ClientAnswer(_, sessionId, sdp) => Answer(origin, sessionId, sdp)
  }

  datatype Limits = Limits(maxConnections: nat, maxRequests: nat)

  datatype State = State(rooms: map<Group, Room>, counts: map<Group, nat>)

  const INIT: State := State(map[], map[])

  /** A peer is its own sender: each connection has a fresh id and one channel. */
  datatype Letter = Letter(to: set<PeerId>, message: ServerMessage)

  datatype Event =
    | Connecting(group: Group, id: PeerId, info: Info)
    | Requesting(group: Group, id: PeerId)
    | Updating(group: Group, id: PeerId, info: Info)
    | Relaying(group: Group, origin: Client, sdp: ClientSdp)
    | Disconnecting(group: Group, id: PeerId)
    | Clearing

  /** The new state, the letters, and whether the request counter admitted the event. */
  datatype Effect = Effect(state: State, letters: seq<Letter>, admitted: bool)

  function RoomOf(s: State, g: Group): Room {
    if g in s.rooms then s.rooms[g] else map[]
  }

  function CountOf(s: State, g: Group): nat {
    if g in s.counts then s.counts[g] else 0
  }

  const TOO_MANY_REQUESTS: nat := 429

  /** One critical section. A refused connection leaves its room behind, possibly empty. */
  function Apply(l: Limits, s: State, e: Event): Effect {
    match e
    case Connecting(g, id, info) =>
      var room := RoomOf(s, g);
      var count := CountOf(s, g);
      var entered := s.rooms[g := room];
      if |room| >= l.maxConnections then Effect(s.(rooms := entered), [], false)
      else if count >= l.maxRequests then Effect(State(entered, s.counts[g := count]), [], false)
      else
        var client := Client(id, info);
        Effect(State(s.rooms[g := room[id := info]], s.counts[g := count + 1]),
               [Letter(room.Keys, Join(client)), Letter({id}, Hello(client, room))], true)
    case Requesting(g, id) =>
      var count := CountOf(s, g);
      if count >= l.maxRequests then Effect(s.(counts := s.counts[g := count]), [Letter({id}, Error(TOO_MANY_REQUESTS))], false)
      else Effect(s.(counts := s.counts[g := count + 1]), [], true)
    case Updating(g, id, info) =>
      if g in s.rooms && id in s.rooms[g] then
        Effect(s.(rooms := s.rooms[g := s.rooms[g][id := info]]), [Letter(s.rooms[g].Keys - {id}, Update(Client(id, info)))], false)
      else Effect(s, [], false)
    case Relaying(g, origin, m) =>
      Effect(s, if m.target in RoomOf(s, g) then [Letter({m.target}, Forwarded(origin, m))] else [], false)
    case Disconnecting(g, id) =>
      if g !in s.rooms then Effect(s, [], false)
      else
        var rest := s.rooms[g] - {id};
        if rest == map[] then Effect(s.(rooms := s.rooms - {g}), [], false)
        else Effect(s.(rooms := s.rooms[g := rest]), [Letter(rest.Keys, Left(id))], false)
    case Clearing => Effect(s.(counts := map[]), [], false)
  }

  /** The server as it is written: two maps behind locks, changed in place. */
  class SignalingServer {
    var rooms: map<Group, Room>
    var counts: map<Group, nat>
    const limits: Limits

    ghost function Contents(): State
      reads this
    {
      State(rooms, counts)
    }

    constructor (limits: Limits)
      ensures Contents() == INIT && this.limits == limits
    {
      rooms, counts := map[], map[];
      this.limits := limits;
    }

    /** `protect_ddos_request_count`. */
    method ProtectRequestCount(g: Group) returns (ok: bool)
      modifies this`counts
      ensures ok == (CountOf(old(Contents()), g) < limits.maxRequests)
      ensures counts == old(counts)[g := CountOf(old(Contents()), g) + if ok then 1 else 0]
    {
      if g !in counts {
        counts := counts[g := 0];
      }
      if counts[g] >= limits.maxRequests {
        return false;
      }
      counts := counts[g := counts[g] + 1];
      ok := true;
    }

    method Connect(g: Group, id: PeerId, info: Info) returns (letters: seq<Letter>, admitted: bool)
      modifies this
      ensures Effect(Contents(), letters, admitted) == Apply(limits, old(Contents()), Connecting(g, id, info))
    {
      if g !in rooms {
        rooms := rooms[g := map[]];
      }
      assert rooms == old(rooms)[g := RoomOf(old(Contents()), g)];
      if |rooms[g]| >= limits.maxConnections {
        return [], false;
      }
      var ok := ProtectRequestCount(g);
      if !ok {
        return [], false;
      }
      var client := Client(id, info);
      letters := [Letter(rooms[g].Keys, Join(client)), Letter({id}, Hello(client, rooms[g]))];
      rooms := rooms[g := rooms[g][id := info]];
      admitted := true;
    }

    method Request(g: Group, id: PeerId) returns (letters: seq<Letter>, admitted: bool)
      modifies this`counts
      ensures Effect(Contents(), letters, admitted) == Apply(limits, old(Contents()), Requesting(g, id))
    {
      admitted := ProtectRequestCount(g);
      letters := if admitted then [] else [Letter({id}, Error(TOO_MANY_REQUESTS))];
    }

    method SendUpdateToOtherPeers(g: Group, id: PeerId, info: Info) returns (letters: seq<Letter>)
      modifies this`rooms
      ensures Effect(Contents(), letters, false) == Apply(limits, old(Contents()), Updating(g, id, info))
    {
      letters := [];
      if g in rooms {
        if id in rooms[g] {
          letters := [Letter(rooms[g].Keys - {id}, Update(Client(id, info)))];
          rooms := rooms[g := rooms[g][id := info]];
        }
      }
    }

    method SendToPeer(g: Group, origin: Client, m: ClientSdp) returns (letters: seq<Letter>)
      ensures Effect(Contents(), letters, false) == Apply(limits, Contents(), Relaying(g, origin, m))
    {
      letters := [];
      if g in rooms {
        if m.target in rooms[g] {
          match m {
            case ClientOffer(target, sessionId, sdp) => letters := [Letter({target}, Offer(origin, sessionId, sdp))];
            case ClientAnswer(target, sessionId, sdp) => letters := [Letter({target}, Answer(origin, sessionId, sdp))];
          }
        }
      }
    }

    method Disconnect(g: Group, id: PeerId) returns (letters: seq<Letter>)
      modifies this`rooms
      ensures Effect(Contents(), letters, false) == Apply(limits, old(Contents()), Disconnecting(g, id))
    {
      letters := [];
      if g in rooms {
        rooms := rooms[g := rooms[g] - {id}];
        if rooms[g] == map[] {
          rooms := rooms - {g};
          assert rooms == old(rooms) - {g};
        } else {
          letters := [Letter(rooms[g].Keys, Left(id))];
        }
      }
    }

    method Clear()
      modifies this`counts
      ensures Contents() == Apply(limits, old(Contents()), Clearing).state
    {
      counts := map[];
    }
  }

  // ---- Runs ----

  /** The state and all letters after a history. */
  datatype World = World(state: State, letters: seq<Letter>)

  function Run(l: Limits, h: seq<Event>): World
    decreases |h|
  {
    if h == [] then World(INIT, [])
    else
      var w := Run(l, h[..|h| - 1]);
      var f := Apply(l, w.state, h[|h| - 1]);
      World(f.state, w.letters + f.letters)
  }

  /** The ids that have ever asked to connect. */
  function Used(h: seq<Event>): set<PeerId>
    decreases |h|
  {
    if h == [] then {}
    else Used(h[..|h| - 1]) + match h[|h| - 1] case Connecting(_, id, _) => {id} case _ => {}
  }

  /** Every connection draws a new id; nothing else is asked of the history. */
  ghost predicate FreshIds(h: seq<Event>)
    decreases |h|
  {
    h == [] || (FreshIds(h[..|h| - 1]) && (h[|h| - 1].Connecting? ==> h[|h| - 1].id !in Used(h[..|h| - 1])))
  }

  /** What is addressed to one peer, in lock order. */
  function Mail(a: PeerId, letters: seq<Letter>): seq<ServerMessage>
    decreases |letters|
  {
    if letters == [] then []
    else
      var n := |letters| - 1;
      Mail(a, letters[..n]) + if a in letters[n].to then [letters[n].message] else []
  }

  lemma {:induction false} MailAppend(a: PeerId, x: seq<Letter>, y: seq<Letter>)
    ensures Mail(a, x + y) == Mail(a, x) + Mail(a, y)
    decreases |y|
  {
    if y == [] {
      assert x + y == x;
    } else {
      var n := |y| - 1;
      assert (x + y)[..|x + y| - 1] == x + y[..n];
      MailAppend(a, x, y[..n]);
    }
  }

  /** A client's view: a Hello sets it, a Join or an Update writes an entry, a Left removes one. */
  function See(view: Room, m: ServerMessage): Room {
    match m
    case Hello(_, peers) => peers
    case Join(p) => view[p.id := p.info]
    case Update(p) => view[p.id := p.info]
    case Left(id) => view - {id}
    case _ => view
  }

  function Replay(view: Room, mail: seq<ServerMessage>): Room
    decreases |mail|
  {
    if mail == [] then view else See(Replay(view, mail[..|mail| - 1]), mail[|mail| - 1])
  }

  lemma {:induction false} ReplayAppend(view: Room, x: seq<ServerMessage>, y: seq<ServerMessage>)
    ensures Replay(view, x + y) == Replay(Replay(view, x), y)
    decreases |y|
  {
    if y == [] {
      assert x + y == x;
    } else {
      assert (x + y)[..|x + y| - 1] == x + y[..|y| - 1];
      ReplayAppend(view, x, y[..|y| - 1]);
    }
  }

  /** What one event makes of a room. */
  function RoomAfter(l: Limits, s: State, e: Event, g: Group): Room {
    var room := RoomOf(s, g);
    match e
    case Connecting(g', id, info) => if g == g' && Apply(l, s, e).admitted then room[id := info] else room
    case Updating(g', id, info) => if g == g' && id in room then room[id := info] else room
    case Disconnecting(g', id) => if g == g' then room - {id} else room
    case _ => room
  }

  lemma RoomAfterConnect(l: Limits, s: State, g': Group, id: PeerId, info: Info, g: Group)
    ensures RoomOf(Apply(l, s, Connecting(g', id, info)).state, g) == RoomAfter(l, s, Connecting(g', id, info), g)
  {
  }

  lemma RoomAfterUpdate(l: Limits, s: State, g': Group, id: PeerId, info: Info, g: Group)
    ensures RoomOf(Apply(l, s, Updating(g', id, info)).state, g) == RoomAfter(l, s, Updating(g', id, info), g)
  {
  }

  lemma RoomAfterDisconnect(l: Limits, s: State, g': Group, id: PeerId, g: Group)
    ensures RoomOf(Apply(l, s, Disconnecting(g', id)).state, g) == RoomAfter(l, s, Disconnecting(g', id), g)
  {
    var s' := Apply(l, s, Disconnecting(g', id)).state;
    if g' !in s.rooms {
      var none: Room := map[];
      assert none - {id} == none;
    } else if g != g' {
      assert g in s'.rooms <==> g in s.rooms;
    }
  }

  lemma RoomAfterApply(l: Limits, s: State, e: Event, g: Group)
    ensures RoomOf(Apply(l, s, e).state, g) == RoomAfter(l, s, e, g)
  {
    match e {
      case Connecting(g', id, info) => RoomAfterConnect(l, s, g', id, info, g);
      case Updating(g', id, info) => RoomAfterUpdate(l, s, g', id, info, g);
      case Disconnecting(g', id) => RoomAfterDisconnect(l, s, g', id, g);
      case _ => assert Apply(l, s, e).state.rooms == s.rooms;
    }
  }

  /** A room is there after an event: a refused connection leaves it too, the last peer takes it away. */
  lemma RoomIsThere(l: Limits, s: State, e: Event, g: Group)
    ensures g in Apply(l, s, e).state.rooms <==>
      match e
      case Connecting(g', _, _) => g == g' || g in s.rooms
      case Disconnecting(g', id) => g in s.rooms && (g == g' ==> exists b :: b in s.rooms[g] && b != id)
      case _ => g in s.rooms
  {
    match e {
      case Disconnecting(g', id) =>
        if g' in s.rooms {
          var rest := s.rooms[g'] - {id};
          assert rest == map[] <==> rest.Keys == {};
          assert forall b :: b in rest <==> b in s.rooms[g'] && b != id;
        }
      case _ =>
    }
  }

  /** What one event says to a member of a room, if anything. */
  function Said(l: Limits, s: State, e: Event, g: Group, a: PeerId): seq<ServerMessage> {
    var room := RoomOf(s, g);
    match e
    case Connecting(g', id, info) =>
      if g != g' || !Apply(l, s, e).admitted then []
      else if a == id then [Hello(Client(id, info), room)]
      else [Join(Client(id, info))]
    case Requesting(_, id) => if a == id && !Apply(l, s, e).admitted then [Error(TOO_MANY_REQUESTS)] else []
    case Updating(g', id, info) => if g == g' && id in room && a != id then [Update(Client(id, info))] else []
    case Relaying(g', origin, m) => if a == m.target && a in RoomOf(s, g') then [Forwarded(origin, m)] else []
    case Disconnecting(g', id) => if g == g' then [Left(id)] else []
    case Clearing => []
  }

  lemma LettersOf(l: Limits, s: State, e: Event)
    ensures var f := Apply(l, s, e);
            match e
            case Connecting(g, id, info) =>
              f.letters == if f.admitted then [Letter(RoomOf(s, g).Keys, Join(Client(id, info))), Letter({id}, Hello(Client(id, info), RoomOf(s, g)))] else []
            case Requesting(_, id) => f.letters == if f.admitted then [] else [Letter({id}, Error(TOO_MANY_REQUESTS))]
            case Updating(g, id, info) =>
              f.letters == if id in RoomOf(s, g) then [Letter(RoomOf(s, g).Keys - {id}, Update(Client(id, info)))] else []
            case Relaying(g, origin, m) => f.letters == if m.target in RoomOf(s, g) then [Letter({m.target}, Forwarded(origin, m))] else []
            case Disconnecting(g, id) =>
              var rest := RoomOf(s, g) - {id};
              f.letters == if rest == map[] then [] else [Letter(rest.Keys, Left(id))]
            case Clearing => f.letters == []
  {
  }

  lemma SaidIsMail(l: Limits, s: State, used: set<PeerId>, e: Event, g: Group, a: PeerId)
    requires Separate(s, used) && (e.Connecting? ==> e.id !in used)
    requires a in RoomAfter(l, s, e, g)
    ensures Mail(a, Apply(l, s, e).letters) == Said(l, s, e, g, a)
  {
    LettersOf(l, s, e);
    hide Apply, RoomOf;
    var letters := Apply(l, s, e).letters;
    if |letters| == 1 {
      MailOfTwo(a, letters[0], letters[0]);
      assert letters == [letters[0]];
    } else if |letters| == 2 {
      MailOfTwo(a, letters[0], letters[1]);
      assert letters == [letters[0], letters[1]];
    }
    if e.Connecting? || e.Updating? || e.Disconnecting? {
      assert a in RoomOf(s, g) && a in RoomOf(s, e.group) ==> g == e.group;
    }
  }

  /** Peers are in one room at most, and have asked to connect. */
  ghost predicate Separate(s: State, used: set<PeerId>) {
    && (forall g, a :: a in RoomOf(s, g) ==> a in used)
    && (forall g, g', a :: a in RoomOf(s, g) && a in RoomOf(s, g') ==> g == g')
  }

  /** Every member's replayed mail is its room without itself. */
  ghost predicate ViewsMatch(w: World) {
    forall g, a :: a in RoomOf(w.state, g) ==> Replay(map[], Mail(a, w.letters)) == RoomOf(w.state, g) - {a}
  }

  lemma MailOfTwo(a: PeerId, x: Letter, y: Letter)
    ensures Mail(a, [x]) == (if a in x.to then [x.message] else [])
    ensures Mail(a, [x, y]) == (if a in x.to then [x.message] else []) + (if a in y.to then [y.message] else [])
  {
    assert [x][..0] == [] && [x, y][..1] == [x];
  }

  lemma OneMessage(view: Room, m: ServerMessage)
    ensures Replay(view, [m]) == See(view, m)
  {
    assert [m][..0] == [];
  }

  /** What an event says to a member turns its old view into its new one. */
  lemma SaidIsRight(l: Limits, s: State, used: set<PeerId>, e: Event, g: Group, a: PeerId, view: Room)
    requires Separate(s, used) && (e.Connecting? ==> e.id !in used)
    requires a in RoomAfter(l, s, e, g)
    requires a in RoomOf(s, g) ==> view == RoomOf(s, g) - {a}
    ensures Replay(view, Said(l, s, e, g, a)) == RoomAfter(l, s, e, g) - {a}
  {
    hide Apply;
    var said := Said(l, s, e, g, a);
    if said != [] {
      OneMessage(view, said[0]);
      assert said == [said[0]];
    }
  }

  lemma StepSeparate(l: Limits, s: State, used: set<PeerId>, e: Event)
    requires Separate(s, used) && (e.Connecting? ==> e.id !in used)
    ensures Separate(Apply(l, s, e).state, used + match e case Connecting(_, id, _) => {id} case _ => {})
  {
    hide Apply, RoomOf;
    var s' := Apply(l, s, e).state;
    forall g, a | a in RoomOf(s', g) ensures a in RoomOf(s, g) || (e.Connecting? && a == e.id && g == e.group) {
      RoomAfterApply(l, s, e, g);
    }
  }

  /**
   * In every reachable state, under any interleaving of connects, updates, relays, disconnects and clears:
   * the mail addressed to a connected peer, replayed in lock order, is its room without itself, with current infos.
   */
  lemma {:induction false} ViewsAlwaysMatch(l: Limits, h: seq<Event>)
    requires FreshIds(h)
    ensures Separate(Run(l, h).state, Used(h)) && ViewsMatch(Run(l, h))
    decreases |h|
  {
    hide Apply, RoomOf, Said;
    if h == [] {
      assert forall g :: RoomOf(INIT, g) == map[] by {
        forall g ensures RoomOf(INIT, g) == map[] {
          EmptyRooms(g);
        }
      }
    } else {
      var h', e := h[..|h| - 1], h[|h| - 1];
      ViewsAlwaysMatch(l, h');
      var w := Run(l, h');
      var f := Apply(l, w.state, e);
      StepSeparate(l, w.state, Used(h'), e);
      forall g, a | a in RoomOf(f.state, g)
        ensures Replay(map[], Mail(a, w.letters + f.letters)) == RoomOf(f.state, g) - {a}
      {
        RoomAfterApply(l, w.state, e, g);
        SaidIsMail(l, w.state, Used(h'), e, g, a);
        MailAppend(a, w.letters, f.letters);
        ReplayAppend(map[], Mail(a, w.letters), Mail(a, f.letters));
        SaidIsRight(l, w.state, Used(h'), e, g, a, Replay(map[], Mail(a, w.letters)));
      }
    }
  }

  lemma EmptyRooms(g: Group)
    ensures RoomOf(INIT, g) == map[]
  {
  }
}
