/** Callbacks waiting for the answer of their session, while all messages are passed on to the application. */
module AnswerRegistry {
  import opened Prelude

  /** An answer names its session; every other server message is the same to the listener. */
  datatype Incoming = Answer(session: string, sdp: string) | Other(text: string)

  /** A registered closure, told apart by a number. */
  type Callback = nat

  datatype Event = Registers(session: string, callback: Callback) | Arrives(message: Incoming)

  datatype Call = Call(callback: Callback, message: Incoming)

  datatype State = State(callbacks: map<string, Callback>, calls: seq<Call>, forwarded: seq<Incoming>)

  const INIT: State := State(map[], [], [])

  function Apply(s: State, e: Event): State {
    match e
    case Registers(session, callback) => s.(callbacks := s.callbacks[session := callback])
    case Arrives(m) =>
      var t := s.(forwarded := s.forwarded + [m]);
      if m.Answer? && m.session in s.callbacks then
        t.(callbacks := s.callbacks - {m.session}, calls := s.calls + [Call(s.callbacks[m.session], m)])
      else t
  }

  class ManagedSignalingConnection {
    var callbacks: map<string, Callback>
    var calls: seq<Call>
    var forwarded: seq<Incoming>

    ghost function Contents(): State
      reads this
    {
      State(callbacks, calls, forwarded)
    }

    constructor ()
      ensures Contents() == INIT
    {
      callbacks, calls, forwarded := map[], [], [];
    }

    /** A callback for a session replaces an earlier one. */
    method OnAnswer(session: string, callback: Callback)
      modifies this`callbacks
      ensures Contents() == Apply(old(Contents()), Registers(session, callback))
    {
      callbacks := callbacks[session := callback];
    }

    /** One iteration of the listener: take out and call the callback of an answer, then pass the message on. */
    method Listen(m: Incoming)
      modifies this
      ensures Contents() == Apply(old(Contents()), Arrives(m))
    {
      if m.Answer? {
        if m.session in callbacks {
          calls := calls + [Call(callbacks[m.session], m)];
          callbacks := callbacks - {m.session};
        }
      }
      forwarded := forwarded + [m];
    }
  }

  function Run(h: seq<Event>): State
    decreases |h|
  {
    if h == [] then INIT else Apply(Run(h[..|h| - 1]), h[|h| - 1])
  }

  // ---- The history read without a registry ----

  predicate Touches(e: Event, session: string) {
    match e
    case Registers(s, _) => s == session
    case Arrives(Answer(s, _)) => s == session
    case Arrives(Other(_)) => false
  }

  /** The callback a session has after a history: the last event of the session decides. */
  function Waiting(h: seq<Event>, session: string): Option<Callback>
    decreases |h|
  {
    if h == [] then None
    else
      var e := h[|h| - 1];
      if !Touches(e, session) then Waiting(h[..|h| - 1], session)
      else if e.Registers? then Some(e.callback) else None
  }

  /** `i` registers a callback and `j` is the first event of its session after it, and an answer. */
  ghost predicate Matches(h: seq<Event>, i: int, j: int) {
    && 0 <= i < j < |h| && h[i].Registers?
    && h[j].Arrives? && h[j].message.Answer? && h[j].message.session == h[i].session
    && forall k :: i < k < j ==> !Touches(h[k], h[i].session)
  }

  lemma {:induction false} WaitingMeans(h: seq<Event>, session: string, callback: Callback)
    ensures Waiting(h, session) == Some(callback)
       <==> exists i :: 0 <= i < |h| && h[i] == Registers(session, callback) && forall k :: i < k < |h| ==> !Touches(h[k], session)
    decreases |h|
  {
    if h != [] {
      var n := |h| - 1;
      WaitingMeans(h[..n], session, callback);
      if !Touches(h[n], session) {
        if i :| 0 <= i < n && h[..n][i] == Registers(session, callback) && forall k :: i < k < n ==> !Touches(h[..n][k], session) {
          assert h[i] == Registers(session, callback);
          forall k | i < k < |h| ensures !Touches(h[k], session) {
            assert k < n ==> h[..n][k] == h[k];
          }
        }
        if i :| 0 <= i < |h| && h[i] == Registers(session, callback) && forall k :: i < k < |h| ==> !Touches(h[k], session) {
          assert h[..n][i] == Registers(session, callback);
        }
      } else if h[n] == Registers(session, callback) {
        assert 0 <= n < |h|;
      }
    }
  }

  function Arrivals(h: seq<Event>): seq<Incoming>
    decreases |h|
  {
    if h == [] then []
    else Arrivals(h[..|h| - 1]) + match h[|h| - 1] case Arrives(m) => [m] case _ => []
  }

  /** What should be called: each answer calls the callback its session is waiting with, if any. */
  function Calls(h: seq<Event>): seq<Call>
    decreases |h|
  {
    if h == [] then []
    else
      var n := |h| - 1;
      Calls(h[..n]) + match h[n]
        case Arrives(Answer(session, sdp)) =>
          (match Waiting(h[..n], session) case None => [] case Some(c) => [Call(c, Answer(session, sdp))])
        case _ => []
  }

  lemma {:induction false} RegistryIsLookBack(h: seq<Event>)
    ensures Run(h).calls == Calls(h) && Run(h).forwarded == Arrivals(h)
    ensures h != [] ==> Run(h).forwarded == Run(h[..|h| - 1]).forwarded + match h[|h| - 1] case Arrives(m) => [m] case Registers(_, _) => []
    ensures forall s :: s in Run(h).callbacks <==> Waiting(h, s).Some?
    ensures forall s <- Run(h).callbacks :: Waiting(h, s) == Some(Run(h).callbacks[s])
    decreases |h|
  {
    if h != [] {
      RegistryIsLookBack(h[..|h| - 1]);
    }
  }

  /** Registrations use different closures. */
  ghost predicate OwnCallbacks(h: seq<Event>) {
    forall i, j :: 0 <= i < j < |h| && h[i].Registers? && h[j].Registers? ==> h[i].callback != h[j].callback
  }

  /** A call is made for a registration and an answer exactly when that answer is the first event of the session after it. */
  lemma {:induction false} CalledExactly(h: seq<Event>, i: int)
    requires OwnCallbacks(h) && 0 <= i < |h| && h[i].Registers?
    ensures forall m :: Call(h[i].callback, m) in Run(h).calls <==> exists j :: Matches(h, i, j) && h[j].message == m
    decreases |h|
  {
    RegistryIsLookBack(h);
    forall m ensures Call(h[i].callback, m) in Calls(h) <==> exists j :: Matches(h, i, j) && h[j].message == m {
      CallsMean(h, i, m);
    }
  }

  lemma {:induction false} CallsMean(h: seq<Event>, i: int, m: Incoming)
    requires OwnCallbacks(h) && 0 <= i < |h| && h[i].Registers?
    ensures Call(h[i].callback, m) in Calls(h) <==> exists j :: Matches(h, i, j) && h[j].message == m
    decreases |h|
  {
    var n := |h| - 1;
    var c := h[i].callback;
    var last := Calls(h)[|Calls(h[..n])|..];
    assert Calls(h) == Calls(h[..n]) + last;
    if i < n {
      assert h[..n][i] == h[i];
      CallsMean(h[..n], i, m);
      MatchesBefore(h, i);
      LastCall(h, i, m);
    } else {
      NoCallYet(h, n);
    }
  }

  lemma MatchesBefore(h: seq<Event>, i: int)
    requires 0 <= i < |h| - 1
    ensures forall j :: j < |h| - 1 ==> (Matches(h, i, j) <==> Matches(h[..|h| - 1], i, j))
  {
    var n := |h| - 1;
    forall j | j < n ensures Matches(h, i, j) <==> Matches(h[..n], i, j) {
      if 0 <= i < j {
        assert forall k :: i <= k <= j ==> h[..n][k] == h[k];
      }
    }
  }

  /** Whether the last event calls the callback registered at `i`. */
  lemma LastCall(h: seq<Event>, i: int, m: Incoming)
    requires OwnCallbacks(h) && 0 <= i < |h| - 1 && h[i].Registers?
    ensures var n := |h| - 1;
            Call(h[i].callback, m) in Calls(h)[|Calls(h[..n])|..] <==> Matches(h, i, n) && h[n].message == m
  {
    var n := |h| - 1;
    if h[n].Arrives? && h[n].message.Answer? {
      var session := h[n].message.session;
      WaitingMeans(h[..n], session, h[i].callback);
      if Waiting(h[..n], session) == Some(h[i].callback) {
        var k :| 0 <= k < n && h[..n][k] == Registers(session, h[i].callback) && forall q :: k < q < n ==> !Touches(h[..n][q], session);
        assert h[k].callback == h[i].callback;
        assert k == i;
        assert forall q :: i < q < n ==> h[..n][q] == h[q];
      }
      if Matches(h, i, n) {
        assert h[..n][i] == Registers(session, h[i].callback);
      }
    }
  }

  /** No call uses a callback that is only registered at the end. */
  lemma {:induction false} NoCallYet(h: seq<Event>, n: nat)
    requires OwnCallbacks(h) && n < |h| && h[n].Registers?
    ensures forall m :: Call(h[n].callback, m) !in Calls(h[..n])
    ensures n == |h| - 1 ==> forall m :: Call(h[n].callback, m) !in Calls(h)
  {
    NoCallFrom(h, n, n);
  }

  lemma {:induction false} NoCallFrom(h: seq<Event>, n: nat, upTo: nat)
    requires OwnCallbacks(h) && upTo <= n < |h| && h[n].Registers?
    ensures forall m :: Call(h[n].callback, m) !in Calls(h[..upTo])
    decreases upTo
  {
    if upTo > 0 {
      NoCallFrom(h, n, upTo - 1);
      assert h[..upTo][..upTo - 1] == h[..upTo - 1];
      var e := h[upTo - 1];
      if e.Arrives? && e.message.Answer? {
        WaitingMeans(h[..upTo - 1], e.message.session, h[n].callback);
      }
    }
  }

  /** No callback is in the log of calls twice, not even when an answer is delivered twice. */
  lemma {:induction false} CalledOnce(h: seq<Event>)
    requires OwnCallbacks(h)
    ensures forall p, q :: 0 <= p < q < |Run(h).calls| ==> Run(h).calls[p].callback != Run(h).calls[q].callback
    decreases |h|
  {
    RegistryIsLookBack(h);
    if h != [] {
      var n := |h| - 1;
      RegistryIsLookBack(h[..n]);
      CalledOnce(h[..n]);
      if h[n].Arrives? && h[n].message.Answer? && Waiting(h[..n], h[n].message.session).Some? {
        WaitingIsUncalled(h[..n], h[n].message.session);
      }
    }
  }

  /** A callback that waits has not been called. */
  lemma WaitingIsUncalled(h: seq<Event>, session: string)
    requires OwnCallbacks(h) && Waiting(h, session).Some?
    ensures forall p :: 0 <= p < |Calls(h)| ==> Calls(h)[p].callback != Waiting(h, session).value
  {
    var c := Waiting(h, session).value;
    WaitingMeans(h, session, c);
    var i :| 0 <= i < |h| && h[i] == Registers(session, c) && forall k :: i < k < |h| ==> !Touches(h[k], session);
    assert forall j :: i < j < |h| ==> !Matches(h, i, j);
    forall p | 0 <= p < |Calls(h)| ensures Calls(h)[p] != Call(c, Calls(h)[p].message) {
      CallsMean(h, i, Calls(h)[p].message);
      assert Calls(h)[p] in Calls(h);
    }
  }
}
