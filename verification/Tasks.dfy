/** A program run to its end on everything that arrives before the channel closes. */
module Tasks {
  import opened Prelude
  import opened Wire
  import opened Network

  datatype Task<!P> = Task(program: Program<P>, rank: P -> nat)

  /** Once the channel is closed, every read brings the program nearer its end. */
  ghost predicate Ends<P(!new)>(t: Task<P>) {
    forall s :: !t.program.halted(s) ==> t.rank(t.program.on(s, None).next) < t.rank(s)
  }

  /** The state in which a task ends, and all it sends. */
  datatype Outcome<P> = Outcome(end: P, out: seq<Message>)

  function First(inbox: seq<Message>): Option<Message> {
    if inbox == [] then None else Some(inbox[0])
  }

  function Tail(inbox: seq<Message>): seq<Message> {
    if inbox == [] then [] else inbox[1..]
  }

  function Behaviour<P(!new)>(t: Task<P>, s: P, inbox: seq<Message>): Outcome<P>
    requires Ends(t)
    decreases |inbox|, t.rank(s)
  {
    if t.program.halted(s) then Outcome(s, [])
    else
      var r := t.program.on(s, First(inbox));
      var o := Behaviour(t, r.next, Tail(inbox));
      o.(out := r.out + o.out)
  }

  /** What follows from a reaction, after the messages `sent`. */
  function From<P(!new)>(t: Task<P>, sent: seq<Message>, r: Reaction<P>, inbox: seq<Message>): Outcome<P>
    requires Ends(t)
  {
    var o := Behaviour(t, r.next, inbox);
    o.(out := sent + r.out + o.out)
  }

  lemma Proceed<P(!new)>(t: Task<P>, sent: seq<Message>, r: Reaction<P>, inbox: seq<Message>)
    requires Ends(t)
    ensures From(t, sent, r, inbox)
         == if t.program.halted(r.next) then Outcome(r.next, sent + r.out)
            else From(t, sent + r.out, t.program.on(r.next, First(inbox)), Tail(inbox))
  {
    if t.program.halted(r.next) {
      assert sent + r.out + [] == sent + r.out;
    } else {
      var q := t.program.on(r.next, First(inbox));
      var o := Behaviour(t, q.next, Tail(inbox));
      assert sent + r.out + (q.out + o.out) == sent + r.out + q.out + o.out;
    }
  }

  lemma FromPrefix<P(!new)>(t: Task<P>, sent: seq<Message>, r: Reaction<P>, inbox: seq<Message>)
    requires Ends(t)
    ensures From(t, sent, r, inbox) == From(t, sent + r.out, Reaction(r.next, []), inbox)
  {
    assert sent + r.out + [] == sent + r.out;
  }
}
