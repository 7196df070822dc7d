/**
 * Two sequential programs joined by two FIFO queues. A program alternates between sending what it has
 * pending, one message per step, and reading one message; a read on an empty queue waits until the peer
 * has terminated and then sees the channel closed. Either side may move at any time.
 */
module Network {
  import opened Prelude
  import opened Wire

  datatype Reaction<P> = Reaction(next: P, out: seq<Message>)

  /** `on(p, None)` is the reaction to a closed channel. */
  datatype Program<!P> = Program(on: (P, Option<Message>) -> Reaction<P>, halted: P -> bool)

  datatype System<!P, !Q> = System(left: Program<P>, right: Program<Q>)

  /** `leftOut` and `rightOut` are pending sends; `toLeft` and `toRight` are the messages in flight. */
  datatype Config<P, Q> = Config(
    left: P, leftOut: seq<Message>, right: Q, rightOut: seq<Message>,
    toRight: seq<Message>, toLeft: seq<Message>)

  datatype Who = LeftMoves | RightMoves

  function StepLeft<P, Q>(sys: System<P, Q>, c: Config<P, Q>): Option<Config<P, Q>> {
    if c.leftOut != [] then
      Some(c.(leftOut := c.leftOut[1..], toRight := c.toRight + [c.leftOut[0]]))
    else if sys.left.halted(c.left) then None
    else if c.toLeft != [] then
      var r := sys.left.on(c.left, Some(c.toLeft[0]));
      Some(c.(left := r.next, leftOut := r.out, toLeft := c.toLeft[1..]))
    else if sys.right.halted(c.right) && c.rightOut == [] then
      var r := sys.left.on(c.left, None);
      Some(c.(left := r.next, leftOut := r.out))
    else None
  }

  function Flip<P, Q>(c: Config<P, Q>): Config<Q, P> {
    Config(c.right, c.rightOut, c.left, c.leftOut, c.toLeft, c.toRight)
  }

  function FlipSystem<P, Q>(sys: System<P, Q>): System<Q, P> {
    System(sys.right, sys.left)
  }

  function Step<P, Q>(sys: System<P, Q>, who: Who, c: Config<P, Q>): Option<Config<P, Q>> {
    match who
    case LeftMoves => StepLeft(sys, c)
    case RightMoves =>
      match StepLeft(FlipSystem(sys), Flip(c))
      case None => None
      case Some(d) => Some(Flip(d))
  }

  predicate Quiescent<P, Q>(sys: System<P, Q>, c: Config<P, Q>) {
    Step(sys, LeftMoves, c).None? && Step(sys, RightMoves, c).None?
  }

  /** The configuration after the moves of a schedule; `None` if one of them is not enabled. */
  function Run<P, Q>(sys: System<P, Q>, schedule: seq<Who>, c: Config<P, Q>): Option<Config<P, Q>> {
    if schedule == [] then Some(c)
    else match Step(sys, schedule[0], c)
      case None => None
      case Some(d) => Run(sys, schedule[1..], d)
  }

  ghost predicate Reaches<P(!new), Q(!new)>(sys: System<P, Q>, c: Config<P, Q>, d: Config<P, Q>) {
    exists schedule :: Run(sys, schedule, c) == Some(d)
  }

  // ---- Confluence ----

  /** Moves of different sides commute: neither disables the other, and the order does not matter. */
  lemma Diamond<P, Q>(sys: System<P, Q>, c: Config<P, Q>)
    requires Step(sys, LeftMoves, c).Some? && Step(sys, RightMoves, c).Some?
    ensures Step(sys, RightMoves, Step(sys, LeftMoves, c).value).Some?
    ensures Step(sys, RightMoves, Step(sys, LeftMoves, c).value)
         == Step(sys, LeftMoves, Step(sys, RightMoves, c).value)
  {
    if c.leftOut != [] && c.toRight != [] {
      assert (c.toRight + [c.leftOut[0]])[1..] == c.toRight[1..] + [c.leftOut[0]];
    }
    if c.rightOut != [] && c.toLeft != [] {
      assert (c.toLeft + [c.rightOut[0]])[1..] == c.toLeft[1..] + [c.rightOut[0]];
    }
  }

  /** One move and a run from the same place can be brought together, with at most one move after the run. */
  lemma {:induction false} Strip<P, Q>(sys: System<P, Q>, c: Config<P, Q>, who: Who, schedule: seq<Who>)
    returns (x: seq<Who>, y: seq<Who>)
    requires Step(sys, who, c).Some? && Run(sys, schedule, c).Some?
    ensures |y| <= 1 && Run(sys, x, Step(sys, who, c).value).Some?
    ensures Run(sys, x, Step(sys, who, c).value) == Run(sys, y, Run(sys, schedule, c).value)
    decreases |schedule|
  {
    if schedule == [] {
      x, y := [], [who];
      assert y[1..] == [];
    } else if schedule[0] == who {
      x, y := schedule[1..], [];
    } else {
      Diamond(sys, c);
      var x', y' := Strip(sys, Step(sys, schedule[0], c).value, who, schedule[1..]);
      x, y := [schedule[0]] + x', y';
      assert x[1..] == x';
    }
  }

  /** Any two runs from the same place can be continued to a common one. */
  lemma {:induction false} Confluence<P, Q>(sys: System<P, Q>, c: Config<P, Q>, a: seq<Who>, b: seq<Who>)
    returns (x: seq<Who>, y: seq<Who>)
    requires Run(sys, a, c).Some? && Run(sys, b, c).Some?
    ensures Run(sys, x, Run(sys, a, c).value).Some?
    ensures Run(sys, x, Run(sys, a, c).value) == Run(sys, y, Run(sys, b, c).value)
    decreases |a|
  {
    if a == [] {
      x, y := b, [];
    } else {
      var x', y' := Strip(sys, c, a[0], b);
      var y'';
      x, y'' := Confluence(sys, Step(sys, a[0], c).value, a[1..], x');
      y := y' + y'';
      RunAppend(sys, y', y'', Run(sys, b, c).value);
    }
  }

  /** A move first, then some schedule as long as the rest of a given terminating one, ends in the same place. */
  lemma {:induction false} Residual<P, Q>(sys: System<P, Q>, schedule: seq<Who>, c: Config<P, Q>, who: Who)
    returns (rest: seq<Who>)
    requires Run(sys, schedule, c).Some? && Quiescent(sys, Run(sys, schedule, c).value)
    requires Step(sys, who, c).Some?
    ensures |rest| + 1 == |schedule|
    ensures Run(sys, rest, Step(sys, who, c).value) == Run(sys, schedule, c)
    decreases |schedule|
  {
    if schedule == [] {
      assert false;
    } else if schedule[0] == who {
      rest := schedule[1..];
    } else {
      Diamond(sys, c);
      var tail := Residual(sys, schedule[1..], Step(sys, schedule[0], c).value, who);
      rest := [schedule[0]] + tail;
      assert rest[1..] == tail;
    }
  }

  /**
   * If one schedule ends in a quiescent configuration, every other schedule is at most as long and can be
   * continued to end there too, in exactly the missing number of moves.
   */
  lemma {:induction false} Completion<P, Q>(sys: System<P, Q>, c: Config<P, Q>, known: seq<Who>, other: seq<Who>)
    returns (rest: seq<Who>)
    requires Run(sys, known, c).Some? && Quiescent(sys, Run(sys, known, c).value)
    requires Run(sys, other, c).Some?
    ensures |other| + |rest| == |known|
    ensures Run(sys, rest, Run(sys, other, c).value) == Run(sys, known, c)
    decreases |other|
  {
    if other == [] {
      rest := known;
    } else {
      var known' := Residual(sys, known, c, other[0]);
      rest := Completion(sys, Step(sys, other[0], c).value, known', other[1..]);
    }
  }

  /** No run from `c` makes more than `bound` moves. */
  ghost predicate Bounded<P, Q>(sys: System<P, Q>, c: Config<P, Q>, bound: nat) {
    forall schedule :: Run(sys, schedule, c).Some? ==> |schedule| <= bound
  }

  /** Every run from `c` is finite and can only stop in `end`. */
  ghost predicate AlwaysEndsIn<P(!new), Q(!new)>(sys: System<P, Q>, c: Config<P, Q>, end: Config<P, Q>) {
    && Quiescent(sys, end)
    && Reaches(sys, c, end)
    && (exists bound: nat :: Bounded(sys, c, bound))
    && (forall d :: Reaches(sys, c, d) ==> Reaches(sys, d, end))
    && (forall d :: Reaches(sys, c, d) && Quiescent(sys, d) ==> d == end)
  }

  lemma EveryRunEndsThere<P(!new), Q(!new)>(sys: System<P, Q>, c: Config<P, Q>, end: Config<P, Q>)
    requires Reaches(sys, c, end) && Quiescent(sys, end)
    ensures AlwaysEndsIn(sys, c, end)
  {
    var known :| Run(sys, known, c) == Some(end);
    forall other | Run(sys, other, c).Some? ensures |other| <= |known| {
      var rest := Completion(sys, c, known, other);
    }
    assert Bounded(sys, c, |known|);
    forall d | Reaches(sys, c, d) ensures Reaches(sys, d, end) && (Quiescent(sys, d) ==> d == end) {
      var other :| Run(sys, other, c) == Some(d);
      var rest := Completion(sys, c, known, other);
      if Quiescent(sys, d) {
        assert rest == [];
      }
    }
  }

  // ---- Composing runs ----

  lemma {:induction false} RunAppend<P, Q>(sys: System<P, Q>, a: seq<Who>, b: seq<Who>, c: Config<P, Q>)
    requires Run(sys, a, c).Some?
    ensures Run(sys, a + b, c) == Run(sys, b, Run(sys, a, c).value)
    decreases |a|
  {
    if a == [] {
      assert a + b == b;
    } else {
      RunAppend(sys, a[1..], b, Step(sys, a[0], c).value);
      assert (a + b)[1..] == a[1..] + b;
    }
  }

  lemma ReachesTrans<P(!new), Q(!new)>(sys: System<P, Q>, c: Config<P, Q>, d: Config<P, Q>, e: Config<P, Q>)
    requires Reaches(sys, c, d) && Reaches(sys, d, e)
    ensures Reaches(sys, c, e)
  {
    var a :| Run(sys, a, c) == Some(d);
    var b :| Run(sys, b, d) == Some(e);
    RunAppend(sys, a, b, c);
    assert Run(sys, a + b, c) == Some(e);
  }

  lemma ReachesSelf<P(!new), Q(!new)>(sys: System<P, Q>, c: Config<P, Q>)
    ensures Reaches(sys, c, c)
  {
    assert Run(sys, [], c) == Some(c);
  }

  lemma ReachesStep<P(!new), Q(!new)>(sys: System<P, Q>, who: Who, c: Config<P, Q>, d: Config<P, Q>)
    requires Step(sys, who, c) == Some(d)
    ensures Reaches(sys, c, d)
  {
    assert Run(sys, [who][1..], d) == Some(d);
    assert Run(sys, [who], c) == Some(d);
  }

  lemma {:induction false} FlippedRun<P, Q>(sys: System<P, Q>, schedule: seq<Who>, c: Config<P, Q>) returns (mirrored: seq<Who>)
    requires Run(sys, schedule, c).Some?
    ensures Run(FlipSystem(sys), mirrored, Flip(c)) == Some(Flip(Run(sys, schedule, c).value))
    decreases |schedule|
  {
    if schedule == [] {
      mirrored := [];
    } else {
      var tail := FlippedRun(sys, schedule[1..], Step(sys, schedule[0], c).value);
      mirrored := [if schedule[0].LeftMoves? then RightMoves else LeftMoves] + tail;
      assert mirrored[1..] == tail;
    }
  }

  lemma FlippedReaches<P(!new), Q(!new)>(sys: System<P, Q>, c: Config<P, Q>, d: Config<P, Q>)
    requires Reaches(FlipSystem(sys), Flip(c), Flip(d))
    ensures Reaches(sys, c, d)
  {
    var s :| Run(FlipSystem(sys), s, Flip(c)) == Some(Flip(d));
    var m := FlippedRun(FlipSystem(sys), s, Flip(c));
    assert Run(sys, m, c) == Some(d);
  }

  /** Both sides have sent all they had to send. */
  function Calm<P, Q>(left: P, right: Q, toRight: seq<Message>, toLeft: seq<Message>): Config<P, Q> {
    Config(left, [], right, [], toRight, toLeft)
  }

  lemma {:induction false} FlushLeft<P(!new), Q(!new)>(sys: System<P, Q>, c: Config<P, Q>)
    ensures Reaches(sys, c, c.(leftOut := [], toRight := c.toRight + c.leftOut))
    decreases |c.leftOut|
  {
    if c.leftOut == [] {
      assert c.toRight + [] == c.toRight;
      ReachesSelf(sys, c);
    } else {
      var d := c.(leftOut := c.leftOut[1..], toRight := c.toRight + [c.leftOut[0]]);
      ReachesStep(sys, LeftMoves, c, d);
      FlushLeft(sys, d);
      assert d.toRight + d.leftOut == c.toRight + c.leftOut;
      ReachesTrans(sys, c, d, c.(leftOut := [], toRight := c.toRight + c.leftOut));
    }
  }

  /** A program reading messages until it halts or they run out. */
  function Drain<P>(p: Program<P>, state: P, ms: seq<Message>): (Reaction<P>, seq<Message>)
    decreases |ms|
  {
    if ms == [] || p.halted(state) then (Reaction(state, []), ms)
    else
      var r := p.on(state, Some(ms[0]));
      var (end, rest) := Drain(p, r.next, ms[1..]);
      (Reaction(end.next, r.out + end.out), rest)
  }

  lemma DrainOne<P>(p: Program<P>, state: P, m: Message)
    requires !p.halted(state)
    ensures Drain(p, state, [m]) == (p.on(state, Some(m)), [])
  {
    var r := p.on(state, Some(m));
    assert [m][1..] == [] && r.out + [] == r.out;
  }

  lemma DrainHalting<P>(p: Program<P>, state: P, m: Message, rest: seq<Message>)
    requires !p.halted(state) && p.halted(p.on(state, Some(m)).next)
    ensures Drain(p, state, [m] + rest) == (p.on(state, Some(m)), rest)
  {
    var r := p.on(state, Some(m));
    assert ([m] + rest)[1..] == rest && r.out + [] == r.out;
  }

  lemma {:induction false} DrainAppend<P>(p: Program<P>, state: P, a: seq<Message>, b: seq<Message>)
    requires Drain(p, state, a).1 == []
    ensures var (r, _) := Drain(p, state, a);
            var (end, rest) := Drain(p, r.next, b);
            Drain(p, state, a + b) == (Reaction(end.next, r.out + end.out), rest)
    decreases |a|
  {
    if a == [] {
      assert a + b == b;
      var (end, rest) := Drain(p, state, b);
      assert [] + end.out == end.out;
    } else {
      var r := p.on(state, Some(a[0]));
      DrainAppend(p, r.next, a[1..], b);
      assert (a + b)[1..] == a[1..] + b;
      var (r', _) := Drain(p, r.next, a[1..]);
      var (end, rest) := Drain(p, r'.next, b);
      assert r.out + (r'.out + end.out) == (r.out + r'.out) + end.out;
    }
  }

  /** Left reads everything in its queue. */
  lemma {:induction false} DrainLeft<P(!new), Q(!new)>(sys: System<P, Q>, left: P, right: Q, toRight: seq<Message>, toLeft: seq<Message>)
    ensures var (r, rest) := Drain(sys.left, left, toLeft);
            Reaches(sys, Calm(left, right, toRight, toLeft), Calm(r.next, right, toRight + r.out, rest))
    decreases |toLeft|
  {
    var c := Calm(left, right, toRight, toLeft);
    if toLeft == [] || sys.left.halted(left) {
      assert toRight + [] == toRight;
      ReachesSelf(sys, c);
    } else {
      var r := sys.left.on(left, Some(toLeft[0]));
      var d := c.(left := r.next, leftOut := r.out, toLeft := toLeft[1..]);
      ReachesStep(sys, LeftMoves, c, d);
      FlushLeft(sys, d);
      var e := Calm(r.next, right, toRight + r.out, toLeft[1..]);
      ReachesTrans(sys, c, d, e);
      DrainLeft(sys, r.next, right, toRight + r.out, toLeft[1..]);
      var (end, rest) := Drain(sys.left, r.next, toLeft[1..]);
      assert toRight + r.out + end.out == toRight + (r.out + end.out);
      ReachesTrans(sys, c, e, Calm(end.next, right, toRight + (r.out + end.out), rest));
    }
  }

  lemma DrainRight<P(!new), Q(!new)>(sys: System<P, Q>, left: P, right: Q, toRight: seq<Message>, toLeft: seq<Message>)
    ensures var (r, rest) := Drain(sys.right, right, toRight);
            Reaches(sys, Calm(left, right, toRight, toLeft), Calm(left, r.next, rest, toLeft + r.out))
  {
    DrainLeft(FlipSystem(sys), right, left, toLeft, toRight);
    var (r, rest) := Drain(sys.right, right, toRight);
    FlippedReaches(sys, Calm(left, right, toRight, toLeft), Calm(left, r.next, rest, toLeft + r.out));
  }

  /** Left, waiting on an empty queue, sees that right has terminated. */
  lemma CloseLeft<P(!new), Q(!new)>(sys: System<P, Q>, left: P, right: Q, toRight: seq<Message>)
    requires sys.right.halted(right) && !sys.left.halted(left)
    ensures var r := sys.left.on(left, None);
            Reaches(sys, Calm(left, right, toRight, []), Calm(r.next, right, toRight + r.out, []))
  {
    var c := Calm(left, right, toRight, []);
    var r := sys.left.on(left, None);
    var d := c.(left := r.next, leftOut := r.out);
    ReachesStep(sys, LeftMoves, c, d);
    FlushLeft(sys, d);
    ReachesTrans(sys, c, d, Calm(r.next, right, toRight + r.out, []));
  }

  lemma CloseRight<P(!new), Q(!new)>(sys: System<P, Q>, left: P, right: Q, toLeft: seq<Message>)
    requires sys.left.halted(left) && !sys.right.halted(right)
    ensures var r := sys.right.on(right, None);
            Reaches(sys, Calm(left, right, [], toLeft), Calm(left, r.next, [], toLeft + r.out))
  {
    CloseLeft(FlipSystem(sys), right, left, toLeft);
    var r := sys.right.on(right, None);
    FlippedReaches(sys, Calm(left, right, [], toLeft), Calm(left, r.next, [], toLeft + r.out));
  }
}
