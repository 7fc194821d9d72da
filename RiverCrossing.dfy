/**
 * The wolf, goat and cabbage puzzle of HW7/river_crossing.py: the safety
 * predicate, the move generator and the breadth-first search for a solution.
 *
 * A state gives the bank (0 the starting bank, 1 the far one) of the man, the
 * wolf, the goat and the cabbage. A move is one crossing of the man, alone or
 * with one item; the source's textual descriptions of the moves are the four
 * constructors of `Move`.
 */
module RiverCrossing {
  import opened Wrappers

  type Bank = b: int | 0 <= b <= 1

  datatype State = State(man: Bank, wolf: Bank, goat: Bank, cabbage: Bank)

  datatype Move = Alone | WithWolf | WithGoat | WithCabbage

  const Start: State := State(0, 0, 0, 0)
  const Goal: State := State(1, 1, 1, 1)

  /** `is_valid`: neither the wolf and the goat nor the goat and the cabbage
      are together on a bank without the man. */
  predicate IsValid(s: State)
  {
    && !(s.wolf == s.goat && s.man != s.wolf)
    && !(s.goat == s.cabbage && s.man != s.goat)
  }

  /** Safety in other words: the goat is with the man, or it is alone on its bank. */
  lemma IsValidMeansGoatGuarded(s: State)
    ensures IsValid(s) <==> s.goat == s.man || (s.wolf != s.goat && s.cabbage != s.goat)
  {
  }

  /** All sixteen states. */
  function AllStates(): set<State>
  {
    { State(0, 0, 0, 0), State(0, 0, 0, 1), State(0, 0, 1, 0), State(0, 0, 1, 1),
      State(0, 1, 0, 0), State(0, 1, 0, 1), State(0, 1, 1, 0), State(0, 1, 1, 1),
      State(1, 0, 0, 0), State(1, 0, 0, 1), State(1, 0, 1, 0), State(1, 0, 1, 1),
      State(1, 1, 0, 0), State(1, 1, 0, 1), State(1, 1, 1, 0), State(1, 1, 1, 1) }
  }

  /** The six unsafe states, listed. */
  function UnsafeStates(): set<State>
  {
    { State(0, 1, 1, 0), State(0, 1, 1, 1), State(0, 0, 1, 1),
      State(1, 0, 0, 1), State(1, 0, 0, 0), State(1, 1, 0, 0) }
  }

  lemma InAllStates(s: State)
    ensures s in AllStates()
  {
  }

  /** `is_valid` rejects exactly the six listed states. */
  lemma IsValidExactly(s: State)
    ensures IsValid(s) <==> s !in UnsafeStates()
  {
  }

  /** Whether the man may take along what mv names: an item only from his own bank. */
  predicate CanCarry(s: State, mv: Move)
  {
    match mv
    case Alone => true
    case WithWolf => s.wolf == s.man
    case WithGoat => s.goat == s.man
    case WithCabbage => s.cabbage == s.man
  }

  /** The state after the man crosses with what mv names. */
  function Cross(s: State, mv: Move): State
  {
    State(1 - s.man,
          if mv == WithWolf then 1 - s.wolf else s.wolf,
          if mv == WithGoat then 1 - s.goat else s.goat,
          if mv == WithCabbage then 1 - s.cabbage else s.cabbage)
  }

  /** A move the puzzle allows: the man can take it along and the result is safe. */
  predicate Legal(s: State, mv: Move)
  {
    CanCarry(s, mv) && IsValid(Cross(s, mv))
  }

  /** How many of the three items are on different banks in s and t. */
  function ItemsMoved(s: State, t: State): nat
  {
    (if s.wolf != t.wolf then 1 else 0) +
    (if s.goat != t.goat then 1 else 0) +
    (if s.cabbage != t.cabbage then 1 else 0)
  }

  /**
   * `get_next_states`: the safe successors of s, each with the move that
   * reaches it, in the order alone, wolf, goat, cabbage.
   */
  function NextStates(s: State): (moves: seq<(State, Move)>)
    ensures |moves| <= 4
  {
    var newM := 1 - s.man;
    var alone := State(newM, s.wolf, s.goat, s.cabbage);
    var m1 := if IsValid(alone) then [(alone, Alone)] else [];
    var withWolf := State(newM, 1 - s.wolf, s.goat, s.cabbage);
    var m2 := if s.man == s.wolf && IsValid(withWolf) then m1 + [(withWolf, WithWolf)] else m1;
    var withGoat := State(newM, s.wolf, 1 - s.goat, s.cabbage);
    var m3 := if s.man == s.goat && IsValid(withGoat) then m2 + [(withGoat, WithGoat)] else m2;
    var withCabbage := State(newM, s.wolf, s.goat, 1 - s.cabbage);
    if s.man == s.cabbage && IsValid(withCabbage) then m3 + [(withCabbage, WithCabbage)] else m3
  }

  /** Every entry of NextStates(s) is a legal move from s with the state it
      reaches, and that state is safe. */
  lemma NextStatesSound(s: State)
    ensures forall k :: 0 <= k < |NextStates(s)| ==>
      && NextStates(s)[k].0 == Cross(s, NextStates(s)[k].1)
      && Legal(s, NextStates(s)[k].1)
      && IsValid(NextStates(s)[k].0)
  {
  }

  /** NextStates(s) lists every legal move from s. */
  lemma NextStatesComplete(s: State, mv: Move)
    requires Legal(s, mv)
    ensures (Cross(s, mv), mv) in NextStates(s)
  {
  }

  /** No move is listed twice. */
  lemma NextStatesDistinct(s: State)
    ensures forall i, j :: 0 <= i < j < |NextStates(s)| ==> NextStates(s)[i].1 != NextStates(s)[j].1
  {
  }

  /** A crossing moves the man and at most one item, and the item only from
      the man's bank. */
  lemma CrossShape(s: State, mv: Move)
    requires CanCarry(s, mv)
    ensures Cross(s, mv).man == 1 - s.man
    ensures ItemsMoved(s, Cross(s, mv)) <= 1
    ensures Cross(s, mv).wolf != s.wolf ==> s.wolf == s.man
    ensures Cross(s, mv).goat != s.goat ==> s.goat == s.man
    ensures Cross(s, mv).cabbage != s.cabbage ==> s.cabbage == s.man
  {
  }

  /** Every successor that `get_next_states` lists has the man on the other
      bank and at most one item moved, with him, from his bank. */
  lemma SuccessorShape(s: State, k: nat)
    requires k < |NextStates(s)|
    ensures NextStates(s)[k].0.man == 1 - s.man
    ensures ItemsMoved(s, NextStates(s)[k].0) <= 1
    ensures NextStates(s)[k].0.wolf != s.wolf ==> s.wolf == s.man && NextStates(s)[k].0.wolf == NextStates(s)[k].0.man
    ensures NextStates(s)[k].0.goat != s.goat ==> s.goat == s.man && NextStates(s)[k].0.goat == NextStates(s)[k].0.man
    ensures NextStates(s)[k].0.cabbage != s.cabbage ==> s.cabbage == s.man && NextStates(s)[k].0.cabbage == NextStates(s)[k].0.man
  {
    NextStatesSound(s);
    CrossShape(s, NextStates(s)[k].1);
  }

  /**
   * The state reached from s by making the moves of p in order, or None when
   * some move of p is not legal where it is made.
   */
  function Run(s: State, p: seq<Move>): Option<State>
    decreases |p|
  {
    if p == [] then Some(s)
    else
      match Run(s, p[..|p| - 1])
      case None => None
      case Some(u) => if Legal(u, p[|p| - 1]) then Some(Cross(u, p[|p| - 1])) else None
  }

  /** p takes everything from the starting bank to the far bank. */
  predicate IsSolution(p: seq<Move>)
  {
    Run(Start, p) == Some(Goal)
  }

  lemma RunSnoc(s: State, p: seq<Move>, mv: Move)
    ensures Run(s, p + [mv]) ==
      match Run(s, p)
      case None => None
      case Some(u) => if Legal(u, mv) then Some(Cross(u, mv)) else None
  {
    assert (p + [mv])[..|p|] == p;
  }

  /** Every prefix of a run from a safe state can be made, and it ends in a safe state. */
  lemma {:induction false} RunVisitsSafeStates(s: State, p: seq<Move>, k: nat)
    requires IsValid(s) && Run(s, p).Some? && k <= |p|
    ensures Run(s, p[..k]).Some? && IsValid(Run(s, p[..k]).value)
    decreases |p|
  {
    if k < |p| {
      assert p[..|p| - 1][..k] == p[..k];
      RunVisitsSafeStates(s, p[..|p| - 1], k);
    } else {
      assert p[..k] == p;
      if p != [] {
        RunVisitsSafeStates(s, p[..|p| - 1], |p| - 1);
        assert p[..|p| - 1][..|p| - 1] == p[..|p| - 1];
      }
    }
  }

  /** Every move takes the man across: after k moves from s he is on his
      starting bank exactly when k is even. */
  lemma {:induction false} ManAlternates(s: State, p: seq<Move>)
    requires Run(s, p).Some?
    ensures Run(s, p).value.man == if |p| % 2 == 0 then s.man else 1 - s.man
    decreases |p|
  {
    if p != [] {
      var p' := p[..|p| - 1];
      ManAlternates(s, p');
    }
  }

  /** Every prefix of a run that can be made can be made. */
  lemma {:induction false} RunPrefix(s: State, p: seq<Move>, k: nat)
    requires Run(s, p).Some? && k <= |p|
    ensures Run(s, p[..k]).Some?
    decreases |p|
  {
    if k < |p| {
      assert p[..|p| - 1][..k] == p[..k];
      RunPrefix(s, p[..|p| - 1], k);
    } else {
      assert p[..k] == p;
    }
  }

  /** Step i of a run from the starting bank (counting from 1) takes the man
      to the far bank, the direction printed as "->", exactly when i is odd. */
  lemma StepDirection(s: State, p: seq<Move>, i: nat)
    requires s.man == 0 && Run(s, p).Some? && 1 <= i <= |p|
    ensures Run(s, p[..i - 1]).Some? && Run(s, p[..i]).Some?
    ensures Run(s, p[..i - 1]).value.man == 0 <==> i % 2 == 1
    ensures Run(s, p[..i]).value.man == 1 <==> i % 2 == 1
  {
    var before, after := p[..i - 1], p[..i];
    RunPrefix(s, p, i - 1);
    RunPrefix(s, p, i);
    ManAlternates(s, before);
    ManAlternates(s, after);
    assert |before| == i - 1 && |after| == i;
    ParityOfPredecessor(i);
  }

  /** Kept apart: the parity fact costs the caller far more in its own context. */
  lemma ParityOfPredecessor(i: nat)
    requires 1 <= i
    ensures (i - 1) % 2 == 0 <==> i % 2 == 1
  {
  }


  /** A sequence of moves, each legal from the state the one before it
      reached, is a run that ends in the last of those states. */
  lemma {:induction false} RunThrough(s: State, p: seq<Move>, states: seq<State>)
    requires |states| == |p| + 1 && states[0] == s
    requires forall i :: 0 <= i < |p| ==> Legal(states[i], p[i]) && Cross(states[i], p[i]) == states[i + 1]
    ensures Run(s, p) == Some(states[|p|])
    decreases |p|
  {
    if p != [] {
      RunThrough(s, p[..|p| - 1], states[..|p|]);
    }
  }

  /** The puzzle has a solution of seven moves. */
  lemma SevenMoveSolution()
    ensures IsSolution([WithGoat, Alone, WithWolf, WithGoat, WithCabbage, Alone, WithGoat])
  {
    var p := [WithGoat, Alone, WithWolf, WithGoat, WithCabbage, Alone, WithGoat];
    var states := [Start, State(1, 0, 1, 0), State(0, 0, 1, 0), State(1, 1, 1, 0),
                   State(0, 1, 0, 0), State(1, 1, 0, 1), State(0, 1, 0, 1), Goal];
    forall i | 0 <= i < |p|
      ensures Legal(states[i], p[i]) && Cross(states[i], p[i]) == states[i + 1]
    {
      if i == 0 {
      } else if i == 1 {
      } else if i == 2 {
      } else if i == 3 {
      } else if i == 4 {
      } else if i == 5 {
      } else {
        assert i == 6;
      }
    }
    RunThrough(Start, p, states);
  }

  // ---- breadth-first search ----

  /** A queue entry: a state and the moves that reached it from the start. */
  type Entry = (State, seq<Move>)

  /** Every legal move out of a state in done lands in visited. */
  ghost predicate Closed(done: set<State>, visited: set<State>)
  {
    forall v, mv :: v in done && Legal(v, mv) ==> Cross(v, mv) in visited
  }

  /** Every state reachable from the start in fewer than n moves is in done. */
  ghost predicate ReachedBelow(start: State, done: set<State>, n: nat)
  {
    forall p :: Run(start, p).Some? && |p| < n ==> Run(start, p).value in done
  }

  /** When done is closed into visited and holds everything within n - 1 moves,
      every state within n moves is visited. */
  lemma ReachedVisited(start: State, done: set<State>, visited: set<State>, n: nat, p: seq<Move>)
    requires start in visited && done <= visited
    requires Closed(done, visited) && ReachedBelow(start, done, n)
    requires Run(start, p).Some? && |p| <= n
    ensures Run(start, p).value in visited
  {
    if p != [] {
      var p' := p[..|p| - 1];
      assert Run(start, p').value in done;
    }
  }

  /** A state reached with n moves that is neither done nor waiting in a queue
      of entries longer than n is impossible: it is done. */
  lemma FrontierAdvances(start: State, done: set<State>, visited: set<State>, queue: seq<Entry>, n: nat)
    requires start in visited && done <= visited
    requires Closed(done, visited) && ReachedBelow(start, done, n)
    requires forall v :: v in visited && v !in done ==> exists i :: 0 <= i < |queue| && queue[i].0 == v
    requires forall i, p :: 0 <= i < |queue| && Run(start, p) == Some(queue[i].0) ==> |queue[i].1| <= |p|
    requires forall i :: 0 <= i < |queue| ==> n < |queue[i].1|
    ensures ReachedBelow(start, done, n + 1)
  {
    forall p | Run(start, p).Some? && |p| < n + 1
      ensures Run(start, p).value in done
    {
      ReachedVisited(start, done, visited, n, p);
    }
  }

  /** When done holds the start and is closed, every reachable state is in done. */
  lemma {:induction false} ClosedHoldsReachable(start: State, done: set<State>, p: seq<Move>)
    requires start in done && Closed(done, done)
    requires Run(start, p).Some?
    ensures Run(start, p).value in done
    decreases |p|
  {
    if p != [] {
      ClosedHoldsReachable(start, done, p[..|p| - 1]);
    }
  }

  /** A set of states has at most as many elements as a set that contains it. */
  lemma SubsetCardinality(a: set<State>, b: set<State>)
    requires a <= b
    ensures |a| <= |b|
  {
    assert b == a + (b - a);
  }

  /** Every entry of the queue holds moves that reach its state from start,
      and no shorter sequence of moves does. */
  ghost predicate QueueSound(start: State, queue: seq<Entry>)
  {
    && (forall i :: 0 <= i < |queue| ==> Run(start, queue[i].1) == Some(queue[i].0))
    && (forall i, p :: 0 <= i < |queue| && Run(start, p) == Some(queue[i].0) ==> |queue[i].1| <= |p|)
  }

  /** The entries' move counts are level or level + 1, in order. */
  ghost predicate Levels(queue: seq<Entry>, level: nat)
  {
    && (forall i :: 0 <= i < |queue| ==> level <= |queue[i].1| <= level + 1)
    && (forall i, j :: 0 <= i <= j < |queue| ==> |queue[i].1| <= |queue[j].1|)
  }

  /** Every visited state is either done or waiting in the queue exactly once. */
  ghost predicate Bookkeeping(queue: seq<Entry>, visited: set<State>, done: set<State>)
  {
    && done <= visited
    && (forall i :: 0 <= i < |queue| ==> queue[i].0 in visited && queue[i].0 !in done)
    && (forall i, j :: 0 <= i < j < |queue| ==> queue[i].0 != queue[j].0)
    && (forall v :: v in visited && v !in done ==> exists i :: 0 <= i < |queue| && queue[i].0 == v)
  }

  /** The invariant of the search loop; done is the set of states already
      taken from the queue. */
  ghost predicate Inv(start: State, goal: State, queue: seq<Entry>, visited: set<State>, done: set<State>)
  {
    && start in visited
    && Bookkeeping(queue, visited, done)
    && QueueSound(start, queue)
    && (queue != [] ==> Levels(queue, |queue[0].1|) && ReachedBelow(start, done, |queue[0].1|))
    && Closed(done, visited)
    && goal !in done
  }

  /** The invariant while the successors of u, reached by path, are enqueued. */
  ghost predicate InnerInv(start: State, u: State, path: seq<Move>, queue: seq<Entry>, visited: set<State>, done: set<State>)
  {
    && start in visited && u in visited && u !in done
    && Bookkeeping(queue, visited, done + {u})
    && QueueSound(start, queue)
    && Levels(queue, |path|)
    && Closed(done, visited)
    && ReachedBelow(start, done, |path|)
    && Run(start, path) == Some(u)
    && (forall p :: Run(start, p) == Some(u) ==> |path| <= |p|)
  }

  lemma QueueSoundTail(start: State, queue: seq<Entry>)
    requires QueueSound(start, queue) && queue != []
    ensures QueueSound(start, queue[1..])
  {
    forall i, p | 0 <= i < |queue| - 1 && Run(start, p) == Some(queue[1..][i].0)
      ensures |queue[1..][i].1| <= |p|
    {
      assert queue[1..][i] == queue[i + 1];
    }
  }

  lemma LevelsTail(queue: seq<Entry>, level: nat)
    requires Levels(queue, level) && queue != []
    ensures Levels(queue[1..], level)
  {
  }

  lemma BookkeepingPop(queue: seq<Entry>, visited: set<State>, done: set<State>)
    requires Bookkeeping(queue, visited, done) && queue != []
    ensures queue[0].0 in visited && queue[0].0 !in done
    ensures Bookkeeping(queue[1..], visited, done + {queue[0].0})
  {
    var u, rest := queue[0].0, queue[1..];
    forall v | v in visited && v !in done + {u}
      ensures exists i :: 0 <= i < |rest| && rest[i].0 == v
    {
      var i :| 0 <= i < |queue| && queue[i].0 == v;
      assert rest[i - 1].0 == v;
    }
    forall i, j | 0 <= i < j < |rest|
      ensures rest[i].0 != rest[j].0
    {
      assert rest[i] == queue[i + 1] && rest[j] == queue[j + 1];
    }
  }

  /** The search starts with the start state visited and queued. */
  lemma InitKeeps(start: State, goal: State)
    ensures Inv(start, goal, [(start, [])], {start}, {})
  {
    var queue: seq<Entry> := [(start, [])];
    assert queue[0].0 == start;
  }


  /** Adding a state not yet in a set adds one to its size. */
  lemma AddOne(done: set<State>, u: State)
    requires u !in done
    ensures |done + {u}| == |done| + 1
  {
  }

  /** The states never visited shrink when visited grows. */
  lemma UnvisitedShrinks(visited0: set<State>, visited: set<State>)
    requires visited0 < visited <= AllStates()
    ensures AllStates() - visited < AllStates() - visited0
  {
    var w := ProperSubsetWitness(visited0, visited);
    assert w in AllStates() - visited0;
  }

  /** A proper superset has an element the subset lacks. */
  lemma ProperSubsetWitness<T>(a: set<T>, b: set<T>) returns (w: T)
    requires a < b
    ensures w in b && w !in a
  {
    assert exists x :: (x in a) != (x in b);
    w :| w in b && w !in a;
  }

  /** Taking the first entry off the queue. */
  lemma PopKeeps(start: State, goal: State, queue: seq<Entry>, visited: set<State>, done: set<State>)
    requires Inv(start, goal, queue, visited, done) && queue != []
    ensures InnerInv(start, queue[0].0, queue[0].1, queue[1..], visited, done)
  {
    QueueSoundTail(start, queue);
    LevelsTail(queue, |queue[0].1|);
    BookkeepingPop(queue, visited, done);
  }

  /** A state never visited is more than level moves away from start. */
  lemma UnvisitedIsFar(start: State, done: set<State>, visited: set<State>, level: nat, w: State)
    requires start in visited && done <= visited
    requires Closed(done, visited) && ReachedBelow(start, done, level)
    requires w !in visited
    ensures forall p :: Run(start, p) == Some(w) ==> level + 1 <= |p|
  {
    forall p | Run(start, p) == Some(w)
      ensures level + 1 <= |p|
    {
      if |p| <= level {
        ReachedVisited(start, done, visited, level, p);
      }
    }
  }

  lemma QueueSoundPush(start: State, queue: seq<Entry>, w: State, p': seq<Move>)
    requires QueueSound(start, queue)
    requires Run(start, p') == Some(w) && forall p :: Run(start, p) == Some(w) ==> |p'| <= |p|
    ensures QueueSound(start, queue + [(w, p')])
  {
    var queue' := queue + [(w, p')];
    assert forall i :: 0 <= i < |queue| ==> queue'[i] == queue[i];
  }

  lemma LevelsPush(queue: seq<Entry>, level: nat, e: Entry)
    requires Levels(queue, level) && |e.1| == level + 1
    ensures Levels(queue + [e], level)
  {
    var queue' := queue + [e];
    assert forall i :: 0 <= i < |queue| ==> queue'[i] == queue[i];
  }

  lemma BookkeepingPush(queue: seq<Entry>, visited: set<State>, done: set<State>, e: Entry)
    requires Bookkeeping(queue, visited, done) && e.0 !in visited
    ensures Bookkeeping(queue + [e], visited + {e.0}, done)
  {
    var queue' := queue + [e];
    assert forall i :: 0 <= i < |queue| ==> queue'[i] == queue[i];
    assert queue'[|queue|] == e;
  }

  /** Enqueueing w, reached from u by mv, when w was never visited. */
  lemma PushKeeps(start: State, u: State, path: seq<Move>, queue: seq<Entry>, visited: set<State>, done: set<State>, mv: Move)
    requires InnerInv(start, u, path, queue, visited, done)
    requires Legal(u, mv) && Cross(u, mv) !in visited
    ensures InnerInv(start, u, path, queue + [(Cross(u, mv), path + [mv])], visited + {Cross(u, mv)}, done)
  {
    var w := Cross(u, mv);
    RunSnoc(start, path, mv);
    UnvisitedIsFar(start, done, visited, |path|, w);
    QueueSoundPush(start, queue, w, path + [mv]);
    LevelsPush(queue, |path|, (w, path + [mv]));
    BookkeepingPush(queue, visited, done + {u}, (w, path + [mv]));
  }

  /** Once every successor of u is visited, u is done. */
  lemma FinishKeeps(start: State, goal: State, u: State, path: seq<Move>, queue: seq<Entry>, visited: set<State>, done: set<State>)
    requires InnerInv(start, u, path, queue, visited, done)
    requires forall mv :: Legal(u, mv) ==> Cross(u, mv) in visited
    requires goal !in done && u != goal
    ensures Inv(start, goal, queue, visited, done + {u})
  {
    var done' := done + {u};
    assert Closed(done', visited);
    if queue != [] {
      if |queue[0].1| == |path| + 1 {
        FrontierAdvances(start, done', visited, queue, |path|);
      }
    }
  }

  /** The states of the entries es. */
  function EntryStates(es: seq<Entry>): set<State>
  {
    set e | e in es :: e.0
  }

  lemma EntryStatesSnoc(es: seq<Entry>, e: Entry)
    ensures EntryStates(es + [e]) == EntryStates(es) + {e.0}
  {
    assert forall x :: x in es + [e] <==> x in es || x == e;
  }

  /**
   * The entries the inner loop of `solve_river_crossing` appends to the queue
   * for the successors `moves` of a state reached by path: in the order of
   * `moves`, each successor neither visited before nor already appended,
   * with path followed by its move.
   */
  function NewEntries(moves: seq<(State, Move)>, visited: set<State>, path: seq<Move>): seq<Entry>
    decreases |moves|
  {
    if moves == [] then []
    else
      var prev := NewEntries(moves[..|moves| - 1], visited, path);
      var (w, mv) := moves[|moves| - 1];
      if w in visited || w in EntryStates(prev) then prev else prev + [(w, path + [mv])]
  }

  lemma NewEntriesSnoc(moves: seq<(State, Move)>, k: nat, visited: set<State>, path: seq<Move>)
    requires k < |moves|
    ensures NewEntries(moves[..k + 1], visited, path) ==
      var prev := NewEntries(moves[..k], visited, path);
      if moves[k].0 in visited || moves[k].0 in EntryStates(prev) then prev
      else prev + [(moves[k].0, path + [moves[k].1])]
  {
    assert moves[..k + 1][..k] == moves[..k];
  }

  /** One step of the inner loop keeps the queue and visited set equal to
      the old ones plus the entries appended so far. */
  lemma EnqueueStep(moves: seq<(State, Move)>, k: nat, queue: seq<Entry>, visited: set<State>, path: seq<Move>, q: seq<Entry>, v: set<State>)
    requires k < |moves|
    requires q == queue + NewEntries(moves[..k], visited, path)
    requires v == visited + EntryStates(NewEntries(moves[..k], visited, path))
    ensures moves[k].0 in v ==>
      q == queue + NewEntries(moves[..k + 1], visited, path) &&
      v == visited + EntryStates(NewEntries(moves[..k + 1], visited, path))
    ensures moves[k].0 !in v ==>
      q + [(moves[k].0, path + [moves[k].1])] == queue + NewEntries(moves[..k + 1], visited, path) &&
      v + {moves[k].0} == visited + EntryStates(NewEntries(moves[..k + 1], visited, path))
  {
    var prev := NewEntries(moves[..k], visited, path);
    NewEntriesSnoc(moves, k, visited, path);
    EntryStatesSnoc(prev, (moves[k].0, path + [moves[k].1]));
  }

  /** Every appended entry is an unvisited successor with path followed by its move. */
  lemma {:induction false} NewEntriesSound(moves: seq<(State, Move)>, visited: set<State>, path: seq<Move>)
    ensures forall e :: e in NewEntries(moves, visited, path) ==>
      && e.0 !in visited
      && |e.1| == |path| + 1 && e.1[..|path|] == path
      && (e.0, e.1[|path|]) in moves
    decreases |moves|
  {
    if moves != [] {
      var rest := moves[..|moves| - 1];
      NewEntriesSound(rest, visited, path);
      forall e | e in NewEntries(rest, visited, path)
        ensures (e.0, e.1[|path|]) in moves
      {
        assert (e.0, e.1[|path|]) in rest;
      }
      var (w, mv) := moves[|moves| - 1];
      assert (path + [mv])[..|path|] == path && (path + [mv])[|path|] == mv;
      assert (w, mv) in moves;
    }
  }

  /** Every unvisited successor is appended. */
  lemma {:induction false} NewEntriesComplete(moves: seq<(State, Move)>, visited: set<State>, path: seq<Move>)
    ensures forall k :: 0 <= k < |moves| && moves[k].0 !in visited ==>
      moves[k].0 in EntryStates(NewEntries(moves, visited, path))
    decreases |moves|
  {
    if moves != [] {
      var rest := moves[..|moves| - 1];
      NewEntriesComplete(rest, visited, path);
      var prev := NewEntries(rest, visited, path);
      var (w, mv) := moves[|moves| - 1];
      if !(w in visited || w in EntryStates(prev)) {
        EntryStatesSnoc(prev, (w, path + [mv]));
      }
      forall k | 0 <= k < |moves| - 1 && moves[k].0 !in visited
        ensures moves[k].0 in EntryStates(NewEntries(moves, visited, path))
      {
        assert moves[k] == rest[k];
      }
    }
  }

  /** No state is appended twice. */
  lemma {:induction false} NewEntriesDistinct(moves: seq<(State, Move)>, visited: set<State>, path: seq<Move>)
    ensures forall i, j :: 0 <= i < j < |NewEntries(moves, visited, path)| ==>
      NewEntries(moves, visited, path)[i].0 != NewEntries(moves, visited, path)[j].0
    decreases |moves|
  {
    if moves != [] {
      var rest := moves[..|moves| - 1];
      NewEntriesDistinct(rest, visited, path);
      var prev := NewEntries(rest, visited, path);
      var (w, mv) := moves[|moves| - 1];
      if !(w in visited || w in EntryStates(prev)) {
        forall i | 0 <= i < |prev|
          ensures prev[i].0 != w
        {
          assert prev[i] in prev;
        }
      }
    }
  }

  /** Appending the new entries for the successors of u keeps the invariant
      of the inner loop. */
  lemma {:induction false} AppendKeeps(start: State, u: State, path: seq<Move>, queue: seq<Entry>, visited: set<State>, done: set<State>, moves: seq<(State, Move)>)
    requires InnerInv(start, u, path, queue, visited, done)
    requires forall k :: 0 <= k < |moves| ==> moves[k].0 == Cross(u, moves[k].1) && Legal(u, moves[k].1)
    ensures InnerInv(start, u, path, queue + NewEntries(moves, visited, path),
                     visited + EntryStates(NewEntries(moves, visited, path)), done)
    decreases |moves|
  {
    if moves == [] {
      assert queue + [] == queue && EntryStates([]) == {};
    } else {
      AppendKeeps(start, u, path, queue, visited, done, moves[..|moves| - 1]);
      AppendLast(start, u, path, queue, visited, done, moves);
    }
  }

  /** The last successor's entry, when there is one, keeps the invariant. */
  lemma AppendLast(start: State, u: State, path: seq<Move>, queue: seq<Entry>, visited: set<State>, done: set<State>, moves: seq<(State, Move)>)
    requires moves != []
    requires InnerInv(start, u, path, queue + NewEntries(moves[..|moves| - 1], visited, path),
                      visited + EntryStates(NewEntries(moves[..|moves| - 1], visited, path)), done)
    requires moves[|moves| - 1].0 == Cross(u, moves[|moves| - 1].1) && Legal(u, moves[|moves| - 1].1)
    ensures InnerInv(start, u, path, queue + NewEntries(moves, visited, path),
                     visited + EntryStates(NewEntries(moves, visited, path)), done)
  {
    var k := |moves| - 1;
    var q, v := queue + NewEntries(moves[..k], visited, path), visited + EntryStates(NewEntries(moves[..k], visited, path));
    EnqueueStep(moves, k, queue, visited, path, q, v);
    assert moves[..k + 1] == moves;
    if moves[k].0 !in v {
      PushKeeps(start, u, path, q, v, done, moves[k].1);
    }
  }

  /**
   * The inner loop of `solve_river_crossing`, over the successors of u
   * listed by `get_next_states`: every successor never visited is marked
   * visited and enqueued with the moves of path followed by the move that
   * reaches it. Afterwards every legal move out of u lands in visited.
   */
  method EnqueueSuccessors(start: State, goal: State, u: State, path: seq<Move>, queue: seq<Entry>, visited: set<State>, ghost done: set<State>)
    returns (queue': seq<Entry>, visited': set<State>)
    requires InnerInv(start, u, path, queue, visited, done) && visited <= AllStates()
    requires goal !in done && u != goal
    ensures queue' == queue + NewEntries(NextStates(u), visited, path)
    ensures visited' == visited + EntryStates(NewEntries(NextStates(u), visited, path))
    ensures Inv(start, goal, queue', visited', done + {u})
    ensures visited <= visited' <= AllStates()
    ensures visited' == visited ==> queue' == queue
    ensures forall mv :: Legal(u, mv) ==> Cross(u, mv) in visited'
  {
    queue', visited' := queue, visited;
    var moves := NextStates(u);
    for k := 0 to |moves|
      invariant queue' == queue + NewEntries(moves[..k], visited, path)
      invariant visited' == visited + EntryStates(NewEntries(moves[..k], visited, path))
    {
      var (w, mv) := moves[k];
      EnqueueStep(moves, k, queue, visited, path, queue', visited');
      if w !in visited' {
        visited' := visited' + {w};
        queue' := queue' + [(w, path + [mv])];
      }
    }
    assert moves[..|moves|] == moves;
    ghost var added := NewEntries(moves, visited, path);
    NextStatesSound(u);
    AppendKeeps(start, u, path, queue, visited, done, moves);
    NewEntriesSound(moves, visited, path);
    NewEntriesComplete(moves, visited, path);
    forall x | x in visited'
      ensures x in AllStates()
    {
      InAllStates(x);
    }
    if added != [] {
      assert added[0] in added && added[0].0 in EntryStates(added);
    }
    forall mv | Legal(u, mv)
      ensures Cross(u, mv) in visited'
    {
      NextStatesComplete(u, mv);
    }
    FinishKeeps(start, goal, u, path, queue', visited', done);
  }

  /**
   * The body of `solve_river_crossing`, for its local start and goal states:
   * breadth-first search with a queue of (state, moves) entries and the set
   * of states ever enqueued, returning the moves of the first entry for the
   * goal taken from the queue, or None once the queue is empty.
   * `dequeues` counts the entries taken from the queue.
   */
  method BreadthFirstSearch(start: State, goal: State) returns (solution: Option<seq<Move>>, ghost dequeues: nat)
    ensures solution.Some? ==> Run(start, solution.value) == Some(goal)
    ensures solution.Some? ==> forall p :: Run(start, p) == Some(goal) ==> |solution.value| <= |p|
    ensures solution.None? ==> forall p :: Run(start, p) != Some(goal)
    ensures dequeues <= |AllStates()|
  {
    var queue: seq<Entry> := [(start, [])];
    var visited: set<State> := {start};
    ghost var done: set<State> := {};
    dequeues := 0;
    InAllStates(start);
    InitKeeps(start, goal);
    while queue != []
      invariant Inv(start, goal, queue, visited, done)
      invariant visited <= AllStates() && dequeues == |done|
      decreases AllStates() - visited, |queue|
    {
      PopKeeps(start, goal, queue, visited, done);
      var (u, path) := queue[0];
      queue := queue[1..];
      dequeues := dequeues + 1;
      AddOne(done, u);
      if u == goal {
        SubsetCardinality(done + {u}, AllStates());
        return Some(path), dequeues;
      }
      ghost var visited0, queue0 := visited, queue;
      queue, visited := EnqueueSuccessors(start, goal, u, path, queue, visited, done);
      if visited != visited0 {
        UnvisitedShrinks(visited0, visited);
      }
      done := done + {u};
    }
    ClosedHoldsReachableAll(start, done);
    SubsetCardinality(done, AllStates());
    return None, dequeues;
  }

  lemma ClosedHoldsReachableAll(start: State, done: set<State>)
    requires start in done && Closed(done, done)
    ensures forall p :: Run(start, p).Some? ==> Run(start, p).value in done
  {
    forall p | Run(start, p).Some? {
      ClosedHoldsReachable(start, done, p);
    }
  }

  /**
   * `solve_river_crossing`: a shortest sequence of moves that takes the man,
   * the wolf, the goat and the cabbage from bank 0 to bank 1, or None when
   * there is none. There always is one, of at most seven moves, and every
   * state on the way is safe.
   */
  method SolveRiverCrossing() returns (solution: Option<seq<Move>>)
    ensures solution.Some? ==> IsSolution(solution.value)
    ensures solution.Some? ==> forall p :: IsSolution(p) ==> |solution.value| <= |p|
    ensures solution.None? ==> forall p :: !IsSolution(p)
    ensures solution.Some? && |solution.value| <= 7
    ensures solution.Some? ==> forall k :: 0 <= k <= |solution.value| ==>
      Run(Start, solution.value[..k]).Some? && IsValid(Run(Start, solution.value[..k]).value)
  {
    ghost var dequeues;
    solution, dequeues := BreadthFirstSearch(Start, Goal);
    SevenMoveSolution();
    forall k | 0 <= k <= |solution.value|
      ensures Run(Start, solution.value[..k]).Some? && IsValid(Run(Start, solution.value[..k]).value)
    {
      RunVisitsSafeStates(Start, solution.value, k);
    }
  }
}
