/** More laws of the signaling server, over all histories: counters and introductions. */
module RoomLaws {
  import opened Rooms

  // ---- Counters and limits ----

  function Min(a: nat, b: nat): nat {
    if a <= b then a else b
  }

  /** Requests since the last clear that reached the counter of a group: a connection to a full room does not. */
  function Attempts(l: Limits, h: seq<Event>, g: Group): nat
    decreases |h|
  {
    if h == [] then 0
    else
      var h', e := h[..|h| - 1], h[|h| - 1];
      if e.Clearing? then 0
      else Attempts(l, h', g) + if Counts(l, Run(l, h').state, e, g) then 1 else 0
  }

  predicate Counts(l: Limits, s: State, e: Event, g: Group) {
    (e.Requesting? || (e.Connecting? && |RoomOf(s, g)| < l.maxConnections)) && e.group == g
  }

  lemma CountAfter(l: Limits, s: State, e: Event, g: Group)
    ensures CountOf(Apply(l, s, e).state, g) ==
      if e.Clearing? then 0
      else if CountOf(s, g) < l.maxRequests && Counts(l, s, e, g) then CountOf(s, g) + 1
      else CountOf(s, g)
  {
  }

  lemma SizeAfter(l: Limits, s: State, e: Event, g: Group)
    requires |RoomOf(s, g)| <= l.maxConnections
    ensures |RoomAfter(l, s, e, g)| <= l.maxConnections
  {
    var room := RoomOf(s, g);
    match e {
      case Connecting(g', id, info) =>
        OnlyIfSpace(l, s, g', id, info);
        hide Apply, RoomOf;
        LargerRoom(room, id, info);
      case Updating(g', id, info) =>
        hide Apply, RoomOf;
        if id in room {
          SameRoom(room, id, info);
        }
      case Disconnecting(g', id) =>
        hide Apply, RoomOf;
        SmallerRoom(room, id);
      case _ =>
    }
  }

  lemma OnlyIfSpace(l: Limits, s: State, g: Group, id: PeerId, info: Info)
    ensures Apply(l, s, Connecting(g, id, info)).admitted ==> |RoomOf(s, g)| < l.maxConnections
  {
  }

  lemma LargerRoom(room: Room, id: PeerId, info: Info)
    ensures |room[id := info]| <= |room| + 1
  {
    assert room[id := info].Keys == room.Keys + {id};
    assert |room[id := info].Keys| <= |room.Keys| + 1;
  }

  lemma SameRoom(room: Room, id: PeerId, info: Info)
    requires id in room
    ensures |room[id := info]| == |room|
  {
    assert room[id := info].Keys == room.Keys;
  }

  lemma SmallerRoom(room: Room, id: PeerId)
    ensures |room - {id}| <= |room|
  {
    var rest := room - {id};
    assert room.Keys == rest.Keys + (room.Keys * {id});
    assert |room.Keys| == |rest.Keys| + |room.Keys * {id}|;
  }

  /** Over all runs a counter is the number of attempts since the last clear, cut off at the limit, and no room is overfull. */
  lemma {:induction false} LimitsHold(l: Limits, h: seq<Event>, g: Group)
    ensures CountOf(Run(l, h).state, g) == Min(l.maxRequests, Attempts(l, h, g))
    ensures |RoomOf(Run(l, h).state, g)| <= l.maxConnections
    decreases |h|
  {
    hide Apply, RoomOf, CountOf;
    if h == [] {
      EmptyRooms(g);
      assert CountOf(INIT, g) == 0 by { NoCounts(g); }
    } else {
      var h', e := h[..|h| - 1], h[|h| - 1];
      LimitsHold(l, h', g);
      CountAfter(l, Run(l, h').state, e, g);
      RoomAfterApply(l, Run(l, h').state, e, g);
      SizeAfter(l, Run(l, h').state, e, g);
    }
  }

  /**
   * Over all runs: a request is admitted exactly while fewer than the allowed have been attempted since the last
   * clear, and refused with code 429; a connection is admitted exactly if the room has space too.
   */
  lemma AdmissionIsExact(l: Limits, h: seq<Event>, g: Group, id: PeerId, info: Info)
    ensures var f := Apply(l, Run(l, h).state, Requesting(g, id));
            && (f.admitted <==> Attempts(l, h, g) < l.maxRequests)
            && f.letters == if f.admitted then [] else [Letter({id}, Error(429))]
    ensures var f := Apply(l, Run(l, h).state, Connecting(g, id, info));
            && (f.admitted <==> |RoomOf(Run(l, h).state, g)| < l.maxConnections && Attempts(l, h, g) < l.maxRequests)
            && (id in RoomOf(f.state, g) <==> f.admitted || id in RoomOf(Run(l, h).state, g))
            && (!f.admitted ==> f.letters == [])
  {
    LimitsHold(l, h, g);
    RoomAfterApply(l, Run(l, h).state, Connecting(g, id, info), g);
  }

  lemma NoCounts(g: Group)
    ensures CountOf(INIT, g) == 0
  {
  }

  // ---- Introductions ----

  /** How many Joins about one peer are addressed to another. */
  function Joins(to: PeerId, about: PeerId, letters: seq<Letter>): nat
    decreases |letters|
  {
    if letters == [] then 0
    else
      var n := |letters| - 1;
      var m := letters[n].message;
      Joins(to, about, letters[..n]) + if to in letters[n].to && m.Join? && m.peer.id == about then 1 else 0
  }

  lemma {:induction false} JoinsAppend(to: PeerId, about: PeerId, x: seq<Letter>, y: seq<Letter>)
    ensures Joins(to, about, x + y) == Joins(to, about, x) + Joins(to, about, y)
    decreases |y|
  {
    if y == [] {
      assert x + y == x;
    } else {
      assert (x + y)[..|x + y| - 1] == x + y[..|y| - 1];
      JoinsAppend(to, about, x, y[..|y| - 1]);
    }
  }

  /** A Hello addressed to `a` lists `b`. */
  ghost predicate Listed(a: PeerId, b: PeerId, letters: seq<Letter>) {
    exists x <- letters :: Lists(a, b, x)
  }

  ghost predicate Lists(a: PeerId, b: PeerId, x: Letter) {
    a in x.to && x.message.Hello? && b in x.message.peers
  }

  /** One of the two found the other in its Hello, and the other got exactly one Join for it. */
  ghost predicate Introduced(a: PeerId, b: PeerId, letters: seq<Letter>) {
    Listed(a, b, letters) && Joins(b, a, letters) == 1 && !Listed(b, a, letters) && Joins(a, b, letters) == 0
  }

  ghost predicate Enters(l: Limits, s: State, e: Event, id: PeerId, b: PeerId) {
    e.Connecting? && Apply(l, s, e).admitted && e.id == id && b in RoomOf(s, e.group)
  }

  lemma StepJoins(l: Limits, s: State, e: Event, to: PeerId, about: PeerId)
    ensures Joins(to, about, Apply(l, s, e).letters) == if Enters(l, s, e, about, to) then 1 else 0
  {
    var letters := Apply(l, s, e).letters;
    if |letters| == 1 {
      JoinsOfTwo(to, about, letters[0], letters[0]);
      assert letters == [letters[0]];
    } else if |letters| == 2 {
      JoinsOfTwo(to, about, letters[0], letters[1]);
      assert letters == [letters[0], letters[1]];
    }
  }

  lemma JoinsOfTwo(to: PeerId, about: PeerId, x: Letter, y: Letter)
    ensures Joins(to, about, [x]) == if to in x.to && x.message.Join? && x.message.peer.id == about then 1 else 0
    ensures Joins(to, about, [x, y]) == Joins(to, about, [x]) + if to in y.to && y.message.Join? && y.message.peer.id == about then 1 else 0
  {
    assert [x][..0] == [] && [x, y][..1] == [x];
  }

  lemma StepListed(l: Limits, s: State, e: Event, a: PeerId, b: PeerId)
    ensures Listed(a, b, Apply(l, s, e).letters) <==> Enters(l, s, e, a, b)
  {
    var letters := Apply(l, s, e).letters;
    if Enters(l, s, e, a, b) {
      assert Lists(a, b, letters[1]);
    }
  }

  lemma ListedAppend(a: PeerId, b: PeerId, x: seq<Letter>, y: seq<Letter>)
    ensures Listed(a, b, x + y) <==> Listed(a, b, x) || Listed(a, b, y)
  {
    assert forall z :: z in x + y <==> z in x || z in y;
  }

  /** What one event adds to the introductions of two peers. */
  lemma StepIntroductions(l: Limits, w: World, e: Event, a: PeerId, b: PeerId)
    ensures var letters := w.letters + Apply(l, w.state, e).letters;
            && (Listed(a, b, letters) <==> Listed(a, b, w.letters) || Enters(l, w.state, e, a, b))
            && Joins(b, a, letters) == Joins(b, a, w.letters) + if Enters(l, w.state, e, a, b) then 1 else 0
  {
    var more := Apply(l, w.state, e).letters;
    ListedAppend(a, b, w.letters, more);
    StepListed(l, w.state, e, a, b);
    JoinsAppend(b, a, w.letters, more);
    StepJoins(l, w.state, e, b, a);
  }

  /** Nobody has heard of an id that never connected, and roommates are introduced one way. */
  ghost predicate Introductions(w: World, used: set<PeerId>) {
    && (forall a, b :: a !in used || b !in used ==> !Listed(a, b, w.letters) && Joins(b, a, w.letters) == 0)
    && (forall g, a, b :: a in RoomOf(w.state, g) && b in RoomOf(w.state, g) && a != b ==>
          Introduced(a, b, w.letters) || Introduced(b, a, w.letters))
  }

  lemma {:induction false} AlwaysIntroduced(l: Limits, h: seq<Event>)
    requires FreshIds(h)
    ensures Introductions(Run(l, h), Used(h))
    decreases |h|
  {
    hide Apply, RoomOf, Listed, Joins;
    if h == [] {
      NobodyListed();
      forall g ensures RoomOf(INIT, g) == map[] { EmptyRooms(g); }
    } else {
      var h', e := h[..|h| - 1], h[|h| - 1];
      var w, w' := Run(l, h'), Run(l, h);
      AlwaysIntroduced(l, h');
      ViewsAlwaysMatch(l, h');
      forall a, b | a !in Used(h) || b !in Used(h) ensures !Listed(a, b, w'.letters) && Joins(b, a, w'.letters) == 0 {
        StepIntroductions(l, w, e, a, b);
      }
      forall g, a, b | a in RoomOf(w'.state, g) && b in RoomOf(w'.state, g) && a != b
        ensures Introduced(a, b, w'.letters) || Introduced(b, a, w'.letters)
      {
        RoomAfterApply(l, w.state, e, g);
        StepIntroductions(l, w, e, a, b);
        StepIntroductions(l, w, e, b, a);
        if a in RoomOf(w.state, g) && b in RoomOf(w.state, g) {
          assert !Enters(l, w.state, e, a, b) && !Enters(l, w.state, e, b, a);
          assert Introduced(a, b, w.letters) || Introduced(b, a, w.letters);
        } else if a in RoomOf(w.state, g) {
          assert Enters(l, w.state, e, b, a) && !Enters(l, w.state, e, a, b) && b !in Used(h');
          assert Introduced(b, a, w'.letters);
        } else {
          assert Enters(l, w.state, e, a, b) && !Enters(l, w.state, e, b, a) && a !in Used(h');
          assert Introduced(a, b, w'.letters);
        }
      }
    }
  }

  lemma NobodyListed()
    ensures forall a, b :: !Listed(a, b, []) && Joins(b, a, []) == 0
  {
  }

  lemma {:induction false} IntroductionsStay(l: Limits, h: seq<Event>, more: seq<Event>, a: PeerId, b: PeerId)
    requires FreshIds(h + more) && a in Used(h) && b in Used(h)
    ensures FreshIds(h) && Used(h) <= Used(h + more)
    ensures Introduced(a, b, Run(l, h + more).letters) == Introduced(a, b, Run(l, h).letters)
    decreases |more|
  {
    hide Apply, Listed, Joins;
    if more == [] {
      assert h + more == h;
    } else {
      var n := |more| - 1;
      assert (h + more)[..|h + more| - 1] == h + more[..n];
      IntroductionsStay(l, h, more[..n], a, b);
      StepIntroductions(l, Run(l, h + more[..n]), more[n], a, b);
      StepIntroductions(l, Run(l, h + more[..n]), more[n], b, a);
    }
  }

  /** Two peers that are ever in one room: exactly one has the other in its Hello, the other gets exactly one Join, for good. */
  lemma IntroducedOnce(l: Limits, h: seq<Event>, more: seq<Event>, g: Group, a: PeerId, b: PeerId)
    requires FreshIds(h + more) && a != b
    requires a in RoomOf(Run(l, h).state, g) && b in RoomOf(Run(l, h).state, g)
    ensures var letters := Run(l, h + more).letters; Introduced(a, b, letters) != Introduced(b, a, letters)
  {
    FreshPrefix(h, more);
    AlwaysIntroduced(l, h);
    ViewsAlwaysMatch(l, h);
    IntroductionsStay(l, h, more, a, b);
    IntroductionsStay(l, h, more, b, a);
  }

  lemma {:induction false} FreshPrefix(h: seq<Event>, more: seq<Event>)
    requires FreshIds(h + more)
    ensures FreshIds(h)
    decreases |more|
  {
    if more == [] {
      assert h + more == h;
    } else {
      assert (h + more)[..|h + more| - 1] == h + more[..|more| - 1];
      FreshPrefix(h, more[..|more| - 1]);
    }
  }

  // ---- Relayed offers and answers ----

  /** The offers and answers in a mail. */
  function Relayed(mail: seq<ServerMessage>): seq<ServerMessage>
    decreases |mail|
  {
    if mail == [] then []
    else
      var n := |mail| - 1;
      Relayed(mail[..n]) + if mail[n].Offer? || mail[n].Answer? then [mail[n]] else []
  }

  lemma {:induction false} RelayedAppend(x: seq<ServerMessage>, y: seq<ServerMessage>)
    ensures Relayed(x + y) == Relayed(x) + Relayed(y)
    decreases |y|
  {
    if y == [] {
      assert x + y == x;
    } else {
      assert (x + y)[..|x + y| - 1] == x + y[..|y| - 1];
      RelayedAppend(x, y[..|y| - 1]);
    }
  }

  /** What a peer should get passed on: everything meant for it while it was in the sender's group. */
  function MeantFor(l: Limits, h: seq<Event>, a: PeerId): seq<ServerMessage>
    decreases |h|
  {
    if h == [] then []
    else
      var n := |h| - 1;
      MeantFor(l, h[..n], a) + match h[n]
        case Relaying(g, origin, ClientOffer(target, sessionId, sdp)) =>
          if target == a && a in RoomOf(Run(l, h[..n]).state, g) then [Offer(origin, sessionId, sdp)] else []
        case Relaying(g, origin, ClientAnswer(target, sessionId, sdp)) =>
          if target == a && a in RoomOf(Run(l, h[..n]).state, g) then [Answer(origin, sessionId, sdp)] else []
        case _ => []
  }

  /** Over all runs, every peer is passed on exactly what is meant for it, once and in order. */
  lemma {:induction false} RelaysArrive(l: Limits, h: seq<Event>, a: PeerId)
    ensures Relayed(Mail(a, Run(l, h).letters)) == MeantFor(l, h, a)
    decreases |h|
  {
    if h != [] {
      var n := |h| - 1;
      var w := Run(l, h[..n]);
      RelaysArrive(l, h[..n], a);
      StepRelays(l, w.state, h[n], a);
      MailAppend(a, w.letters, Apply(l, w.state, h[n]).letters);
      RelayedAppend(Mail(a, w.letters), Mail(a, Apply(l, w.state, h[n]).letters));
    }
  }

  lemma StepRelays(l: Limits, s: State, e: Event, a: PeerId)
    ensures Relayed(Mail(a, Apply(l, s, e).letters))
         == if e.Relaying? && e.sdp.target == a && a in RoomOf(s, e.group) then [Forwarded(e.origin, e.sdp)] else []
  {
    LettersOf(l, s, e);
    var letters := Apply(l, s, e).letters;
    assert e.Relaying? ==> Forwarded(e.origin, e.sdp).Offer? || Forwarded(e.origin, e.sdp).Answer?;
    hide Apply, RoomOf, Forwarded;
    if !e.Relaying? {
      NothingRelayed(a, letters);
    } else if letters != [] {
      MailOfTwo(a, letters[0], letters[0]);
      var m := letters[0].message;
      assert [m][..0] == [] && Relayed([]) == [];
    }
  }

  lemma {:induction false} NothingRelayed(a: PeerId, letters: seq<Letter>)
    requires forall i :: 0 <= i < |letters| ==> !letters[i].message.Offer? && !letters[i].message.Answer?
    ensures Relayed(Mail(a, letters)) == []
    decreases |letters|
  {
    if letters != [] {
      var n := |letters| - 1;
      NothingRelayed(a, letters[..n]);
      if a in letters[n].to {
        assert (Mail(a, letters[..n]) + [letters[n].message])[..|Mail(a, letters[..n])|] == Mail(a, letters[..n]);
      } else {
        assert Mail(a, letters[..n]) + [] == Mail(a, letters[..n]);
      }
    }
  }
}
