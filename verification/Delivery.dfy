/**
 * Letters are sent after the lock is released, each connection's task sending its own in order. A peer may
 * therefore receive other peers' messages in another order than they were decided, even before its Hello.
 */
module Delivery {
  import opened Prelude
  import opened Rooms

  predicate Concerns(b: PeerId, m: ServerMessage) {
    match m
    case Join(p) => p.id == b
    case Update(p) => p.id == b
    case Left(id) => id == b
    case _ => false
  }

  /** The messages caused by one peer. */
  function About(b: PeerId, mail: seq<ServerMessage>): seq<ServerMessage>
    decreases |mail|
  {
    if mail == [] then []
    else
      var n := |mail| - 1;
      About(b, mail[..n]) + if Concerns(b, mail[n]) then [mail[n]] else []
  }

  lemma {:induction false} AboutAppend(b: PeerId, x: seq<ServerMessage>, y: seq<ServerMessage>)
    ensures About(b, x + y) == About(b, x) + About(b, y)
    decreases |y|
  {
    if y == [] {
      assert x + y == x;
    } else {
      var n := |y| - 1;
      assert (x + y)[..|x + y| - 1] == x + y[..n];
      AboutAppend(b, x, y[..n]);
    }
  }

  ghost predicate NoHello(mail: seq<ServerMessage>) {
    forall i :: 0 <= i < |mail| ==> !mail[i].Hello?
  }

  ghost predicate OnlyErrors(mail: seq<ServerMessage>) {
    forall i :: 0 <= i < |mail| ==> mail[i].Error?
  }

  /** One Hello, after nothing but refusals. */
  ghost predicate OneHello(mail: seq<ServerMessage>, refusals: seq<ServerMessage>, hello: ServerMessage, rest: seq<ServerMessage>) {
    mail == refusals + [hello] + rest && OnlyErrors(refusals) && hello.Hello? && NoHello(rest)
  }

  function Entry(room: Room, b: PeerId): Option<Info> {
    if b in room then Some(room[b]) else None
  }

  /** The entry a message about a peer leaves behind. */
  function Leaves(m: ServerMessage): Option<Info> {
    match m
    case Join(p) => Some(p.info)
    case Update(p) => Some(p.info)
    case _ => None
  }

  function Last(mail: seq<ServerMessage>): ServerMessage
    requires mail != []
  {
    mail[|mail| - 1]
  }

  /** Without a Hello, the last message about a peer decides its entry. */
  lemma {:induction false} ReplayEntry(view: Room, mail: seq<ServerMessage>, b: PeerId)
    requires NoHello(mail)
    ensures Entry(Replay(view, mail), b) == if About(b, mail) == [] then Entry(view, b) else Leaves(Last(About(b, mail)))
    decreases |mail|
  {
    if mail != [] {
      var n := |mail| - 1;
      ReplayEntry(view, mail[..n], b);
      assert mail[n] in mail;
    }
  }

  lemma SameEntries(x: Room, y: Room)
    ensures x == y <==> forall b :: Entry(x, b) == Entry(y, b)
  {
    if forall b :: Entry(x, b) == Entry(y, b) {
      forall b ensures b in x <==> b in y {
        assert Entry(x, b) == Entry(y, b);
      }
      forall b | b in x ensures x[b] == y[b] {
        assert Entry(x, b) == Entry(y, b);
      }
    }
  }

  /** Everything a peer caused was delivered before the Hello, and the last of it disagrees with the Hello. */
  ghost predicate Lost(b: PeerId, peers: Room, early: seq<ServerMessage>, late: seq<ServerMessage>) {
    About(b, late) == [] && About(b, early) != [] && Leaves(Last(About(b, early))) != Entry(peers, b)
  }

  lemma ReplayFromHello(view: Room, hello: ServerMessage, before: seq<ServerMessage>, after: seq<ServerMessage>)
    requires hello.Hello?
    ensures Replay(view, before + [hello] + after) == Replay(hello.peers, after)
  {
    ReplayAppend(view, before + [hello], after);
    ReplayAppend(view, before, [hello]);
    OneMessage(Replay(view, before), hello);
  }

  /** `early` and `late` are the messages of `rest` as delivered before and after the Hello, each peer's own in their order. */
  ghost predicate Delivers(rest: seq<ServerMessage>, early: seq<ServerMessage>, late: seq<ServerMessage>) {
    NoHello(early) && NoHello(late) && forall b :: About(b, early + late) == About(b, rest)
  }

  lemma SameViewUnlessLost(view: Room, hello: ServerMessage, rest: seq<ServerMessage>, early: seq<ServerMessage>, late: seq<ServerMessage>)
    requires hello.Hello? && NoHello(rest) && Delivers(rest, early, late)
    ensures Replay(view, early + [hello] + late) == Replay(hello.peers, rest) <==> forall b :: !Lost(b, hello.peers, early, late)
  {
    var peers := hello.peers;
    ReplayFromHello(view, hello, early, late);
    var got, right := Replay(peers, late), Replay(peers, rest);
    SameEntries(got, right);
    forall b ensures Entry(got, b) == Entry(right, b) <==> !Lost(b, peers, early, late) {
      ReplayEntry(peers, late, b);
      ReplayEntry(peers, rest, b);
      AboutAppend(b, early, late);
      assert About(b, early + late) == About(b, rest);
      if About(b, late) != [] {
        assert Last(About(b, rest)) == Last(About(b, late));
      } else {
        assert About(b, rest) == About(b, early);
      }
    }
  }

  // ---- The mail of a connected peer ----

  /** A peer that has not connected is sent refusals at most. */
  lemma {:induction false} NoMailBefore(l: Limits, h: seq<Event>, a: PeerId)
    requires FreshIds(h) && a !in Used(h)
    ensures OnlyErrors(Mail(a, Run(l, h).letters))
    decreases |h|
  {
    if h != [] {
      var h', e := h[..|h| - 1], h[|h| - 1];
      var w := Run(l, h');
      NoMailBefore(l, h', a);
      ViewsAlwaysMatch(l, h');
      MailAppend(a, w.letters, Apply(l, w.state, e).letters);
      OutsiderMail(l, w.state, Used(h'), e, a);
    }
  }

  lemma OutsiderMail(l: Limits, s: State, used: set<PeerId>, e: Event, a: PeerId)
    requires Separate(s, used) && a !in used && (e.Connecting? ==> e.id != a)
    ensures OnlyErrors(Mail(a, Apply(l, s, e).letters))
  {
    LettersOf(l, s, e);
    var letters := Apply(l, s, e).letters;
    assert forall g :: a !in RoomOf(s, g);
    hide Apply, RoomOf, Separate;
    if |letters| == 1 {
      MailOfTwo(a, letters[0], letters[0]);
      assert letters == [letters[0]];
    } else if |letters| == 2 {
      MailOfTwo(a, letters[0], letters[1]);
      assert letters == [letters[0], letters[1]];
    }
  }

  lemma SaidKinds(l: Limits, s: State, used: set<PeerId>, e: Event, g: Group, a: PeerId)
    requires Separate(s, used) && (e.Connecting? ==> e.id !in used)
    requires a in RoomAfter(l, s, e, g)
    ensures a in RoomOf(s, g) ==> NoHello(Said(l, s, e, g, a))
    ensures a !in RoomOf(s, g) ==> e.Connecting? && e.id == a && |Said(l, s, e, g, a)| == 1 && Said(l, s, e, g, a)[0].Hello?
  {
    hide Apply, RoomOf;
  }

  /** The mail of a connected peer is one Hello, after nothing but refusals, and messages of other kinds after it. */
  lemma {:induction false} MailHasOneHello(l: Limits, h: seq<Event>, g: Group, a: PeerId)
    requires FreshIds(h) && a in RoomOf(Run(l, h).state, g)
    ensures exists refusals, hello, rest :: OneHello(Mail(a, Run(l, h).letters), refusals, hello, rest)
    decreases |h|
  {
    hide Apply, RoomOf, Said, RoomAfter;
    if h == [] {
      EmptyRooms(g);
    } else {
      var h', e := h[..|h| - 1], h[|h| - 1];
      var w := Run(l, h');
      ViewsAlwaysMatch(l, h');
      RoomAfterApply(l, w.state, e, g);
      SaidIsMail(l, w.state, Used(h'), e, g, a);
      SaidKinds(l, w.state, Used(h'), e, g, a);
      var said := Said(l, w.state, e, g, a);
      MailAppend(a, w.letters, Apply(l, w.state, e).letters);
      if a in RoomOf(w.state, g) {
        MailHasOneHello(l, h', g, a);
        var refusals, hello, rest :| OneHello(Mail(a, w.letters), refusals, hello, rest);
        assert refusals + [hello] + rest + said == refusals + [hello] + (rest + said);
        assert OneHello(Mail(a, Run(l, h).letters), refusals, hello, rest + said);
      } else {
        NoMailBefore(l, h', a);
        var refusals := Mail(a, w.letters);
        assert said == [said[0]] && refusals + said == refusals + [said[0]] + [];
        assert OneHello(Mail(a, Run(l, h).letters), refusals, said[0], []);
      }
    }
  }

  /**
   * At every reachable state, for every connected peer and every way its mail can be delivered: its view is the
   * current room without itself exactly when nothing was lost; in particular always when the Hello arrives first.
   */
  lemma DeliveredViewIsRight(l: Limits, h: seq<Event>, g: Group, a: PeerId, view: Room,
                             refusals: seq<ServerMessage>, hello: ServerMessage, rest: seq<ServerMessage>,
                             early: seq<ServerMessage>, late: seq<ServerMessage>)
    requires FreshIds(h) && a in RoomOf(Run(l, h).state, g)
    requires OneHello(Mail(a, Run(l, h).letters), refusals, hello, rest) && Delivers(rest, early, late)
    ensures Replay(view, early + [hello] + late) == RoomOf(Run(l, h).state, g) - {a}
       <==> forall b :: !Lost(b, hello.peers, early, late)
  {
    hide Apply, RoomOf, Run, Lost;
    ViewsAlwaysMatch(l, h);
    ReplayFromHello(map[], hello, refusals, rest);
    SameViewUnlessLost(view, hello, rest, early, late);
  }

  lemma RunSnoc(l: Limits, h: seq<Event>, e: Event)
    ensures var w := Run(l, h);
            Run(l, h + [e]) == World(Apply(l, w.state, e).state, w.letters + Apply(l, w.state, e).letters)
    ensures FreshIds(h + [e]) == (FreshIds(h) && (e.Connecting? ==> e.id !in Used(h)))
    ensures Used(h + [e]) == Used(h) + match e case Connecting(_, id, _) => {id} case _ => {}
  {
    assert (h + [e])[..|h|] == h;
  }

  const FIRST: PeerId := 1

  const SECOND: PeerId := 2

  lemma FirstEnters(l: Limits, i: Info)
    requires l.maxConnections >= 2 && l.maxRequests >= 2
    ensures var f := Apply(l, INIT, Connecting("g", FIRST, i));
            f == Effect(State(map["g" := map[FIRST := i]], map["g" := 1]),
                        [Letter({}, Join(Client(FIRST, i))), Letter({FIRST}, Hello(Client(FIRST, i), map[]))], true)
  {
  }

  lemma SecondEnters(l: Limits, i: Info, j: Info)
    requires l.maxConnections >= 2 && l.maxRequests >= 2
    ensures var f := Apply(l, State(map["g" := map[FIRST := i]], map["g" := 1]), Connecting("g", SECOND, j));
            && f.state.rooms == map["g" := map[FIRST := i, SECOND := j]]
            && f.letters == [Letter({FIRST}, Join(Client(SECOND, j))), Letter({SECOND}, Hello(Client(SECOND, j), map[FIRST := i]))]
  {
    assert map[FIRST := i].Keys == {FIRST};
  }

  lemma FirstLeaves(l: Limits, s: State, i: Info, j: Info)
    requires s.rooms == map["g" := map[FIRST := i, SECOND := j]]
    ensures var f := Apply(l, s, Disconnecting("g", FIRST));
            RoomOf(f.state, "g") == map[SECOND := j] && f.letters == [Letter({SECOND}, Left(FIRST))]
  {
    var rest := s.rooms["g"] - {FIRST};
    assert rest == map[SECOND := j] && rest.Keys == {SECOND} && SECOND in rest;
  }

  /** The first peer leaves after the second has entered but before its Hello is sent. */
  function Overtaken(i: Info, j: Info): seq<Event> {
    [Connecting("g", FIRST, i)] + [Connecting("g", SECOND, j)] + [Disconnecting("g", FIRST)]
  }

  lemma OvertakenRun(l: Limits, i: Info, j: Info)
    requires l.maxConnections >= 2 && l.maxRequests >= 2
    ensures var w := Run(l, Overtaken(i, j));
            && FreshIds(Overtaken(i, j))
            && RoomOf(w.state, "g") == map[SECOND := j]
            && Mail(SECOND, w.letters) == [Hello(Client(SECOND, j), map[FIRST := i]), Left(FIRST)]
  {
    hide Apply, Run, Mail, RoomOf;
    var e1, e2, e3 := Connecting("g", FIRST, i), Connecting("g", SECOND, j), Disconnecting("g", FIRST);
    assert [] + [e1] == [e1];
    assert Run(l, []) == World(INIT, []) by { EmptyRun(l); }
    RunSnoc(l, [], e1);
    RunSnoc(l, [e1], e2);
    RunSnoc(l, [e1] + [e2], e3);
    FirstEnters(l, i);
    SecondEnters(l, i, j);
    var s1 := State(map["g" := map[FIRST := i]], map["g" := 1]);
    var f1 := Apply(l, INIT, e1);
    var f2 := Apply(l, s1, e2);
    FirstLeaves(l, f2.state, i, j);
    var f3 := Apply(l, f2.state, e3);
    var none: seq<Letter> := [];
    MailOfTwo(SECOND, f1.letters[0], f1.letters[1]);
    MailOfTwo(SECOND, f2.letters[0], f2.letters[1]);
    MailOfTwo(SECOND, f3.letters[0], f3.letters[0]);
    MailAppend(SECOND, none + f1.letters, f2.letters);
    MailAppend(SECOND, none + f1.letters + f2.letters, f3.letters);
    assert none + f1.letters == f1.letters;
  }

  lemma EmptyRun(l: Limits)
    ensures Run(l, []) == World(INIT, [])
  {
  }

  /** It does happen: delivered before the Hello, the Left is lost, and the newcomer keeps the one that left in its view. */
  lemma HelloOvertaken(l: Limits, i: Info, j: Info)
    requires l.maxConnections >= 2 && l.maxRequests >= 2
    ensures var w := Run(l, Overtaken(i, j));
            exists hello, left :: Mail(SECOND, w.letters) == [hello, left] && FreshIds(Overtaken(i, j))
              && Replay(map[], [hello, left]) == RoomOf(w.state, "g") - {SECOND}
              && Replay(map[], [left, hello]) == map[FIRST := i] != RoomOf(w.state, "g") - {SECOND}
  {
    OvertakenRun(l, i, j);
    var hello, left := Hello(Client(SECOND, j), map[FIRST := i]), Left(FIRST);
    var none: Room := map[];
    ReplayFromHello(none, hello, [left], []);
    assert [left] + [hello] + [] == [left, hello];
    ReplayFromHello(none, hello, [], [left]);
    assert [] + [hello] + [left] == [hello, left];
    OneMessage(hello.peers, left);
    assert map[FIRST := i] - {FIRST} == none && map[SECOND := j] - {SECOND} == none;
    assert FIRST in map[FIRST := i] && FIRST !in none;
    assert Mail(SECOND, Run(l, Overtaken(i, j)).letters) == [hello, left];
  }
}
