/** Runs of a state machine, given as a function that says where an event leads, if it is possible. */
module Runs {
  import opened Basics

  /** The events, taken in order from `s`, are all possible and end in `s'`. */
  ghost predicate Leads<S(!new), E(!new)>(next: (S, E) -> Option<S>, s: S, events: seq<E>, s': S)
    decreases |events|
  {
    if events == [] then s' == s
    else next(s, events[0]).Some? && Leads(next, next(s, events[0]).value, events[1..], s')
  }

  ghost predicate Reaches<S(!new), E(!new)>(next: (S, E) -> Option<S>, s: S, s': S) {
    exists events :: Leads(next, s, events, s')
  }

  /** What every step keeps, every run keeps. */
  lemma {:induction false} Preserved<S(!new), E(!new)>(next: (S, E) -> Option<S>, inv: S -> bool, s: S, events: seq<E>, s': S)
    requires inv(s) && Leads(next, s, events, s')
    requires forall t, e :: inv(t) && next(t, e).Some? ==> inv(next(t, e).value)
    ensures inv(s')
    decreases |events|
  {
    if events != [] { Preserved(next, inv, next(s, events[0]).value, events[1..], s'); }
  }

  lemma {:induction false} Append<S(!new), E(!new)>(next: (S, E) -> Option<S>, s: S, events: seq<E>, mid: S, more: seq<E>, s': S)
    requires Leads(next, s, events, mid) && Leads(next, mid, more, s')
    ensures Leads(next, s, events + more, s')
    decreases |events|
  {
    if events == [] {
      assert events + more == more;
    } else {
      Append(next, next(s, events[0]).value, events[1..], mid, more, s');
      assert (events + more)[1..] == events[1..] + more;
    }
  }

  lemma One<S(!new), E(!new)>(next: (S, E) -> Option<S>, s: S, e: E)
    requires next(s, e).Some?
    ensures Leads(next, s, [e], next(s, e).value)
  {
    assert Leads(next, next(s, e).value, [e][1..], next(s, e).value);
  }

  lemma ReachesHere<S(!new), E(!new)>(next: (S, E) -> Option<S>, s: S)
    ensures Reaches(next, s, s)
  {
    assert Leads(next, s, [], s);
  }

  lemma ReachesOn<S(!new), E(!new)>(next: (S, E) -> Option<S>, s: S, mid: S, e: E)
    requires Reaches(next, s, mid) && next(mid, e).Some?
    ensures Reaches(next, s, next(mid, e).value)
  {
    var events :| Leads(next, s, events, mid);
    One(next, mid, e);
    Append(next, s, events, mid, [e], next(mid, e).value);
  }
}
