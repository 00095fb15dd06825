/** The spinning reader/writer lock of `zgame/include/rwlock.h`: every thread moves by single atomic steps on the
    two shared words, in any order. */
module RwLock {

  type Thread = nat

  /** Where a thread is. */
  datatype Place =
    | Idle
    | ReadWait      // ReadLock(): at Lock()
    | ReadInc       // ReadLock(): at Inc(), with the spin lock
    | ReadOpen      // ReadLock(): at Unlock(), counted
    | Reading
    | WriteWait     // WriteLock(): at Lock()
    | Drain         // WriteLock(): in the loop on counter, with the spin lock
    | Writing
    | Down          // WriteLockToRead(): at Unlock(), counted

  /** What a thread that is not inside an operation does next. */
  datatype Choice = ReadLock | WriteLock | ReadUnlock | WriteUnlock | ToRead | ToWrite

  /** Not inside an operation. */
  predicate AtRest(p: Place) {
    p.Idle? || p.Reading? || p.Writing?
  }

  /** What a thread may call where it is. */
  predicate Callable(p: Place, c: Choice) {
    match c
    case ReadLock => p.Idle?
    case WriteLock => p.Idle?
    case ReadUnlock => p.Reading?
    case ToWrite => p.Reading?
    case WriteUnlock => p.Writing?
    case ToRead => p.Writing?
  }

  /** On the way through an operation, or where it ends. */
  predicate OnTheWay(p: Place, c: Choice) {
    match c
    case ReadLock => p.ReadWait? || p.ReadInc? || p.ReadOpen? || p.Reading?
    case WriteLock => p.WriteWait? || p.Drain? || p.Writing?
    case ReadUnlock => p.Idle?
    case ToWrite => p.WriteWait? || p.Drain? || p.Writing?
    case WriteUnlock => p.Idle?
    case ToRead => p.Down? || p.Reading?
  }

  /** Every thread is on the way of its last call, and idle if it made none. */
  ghost predicate Obeyed(at: map<Thread, Place>, call: map<Thread, Choice>) {
    && (forall t :: t in call ==> t in at && OnTheWay(at[t], call[t]))
    && (forall t :: t in at && t !in call ==> at[t] == Idle)
  }

  /** Places with the spin lock. */
  predicate Locks(p: Place) {
    p.ReadInc? || p.ReadOpen? || p.Drain? || p.Writing? || p.Down?
  }

  /** Places with a read share. */
  predicate Shares(p: Place) {
    p.ReadOpen? || p.Reading? || p.Down?
  }

  ghost predicate Readers(at: map<Thread, Place>, readers: set<Thread>) {
    forall t :: t in readers <==> t in at && Shares(at[t])
  }

  /** At most one thread has the spin lock, and then the word is set. */
  ghost predicate OneHolder(at: map<Thread, Place>, lock: int) {
    && (lock == 0 || lock == 1)
    && (lock == 1 <==> exists t :: t in at && Locks(at[t]))
    && forall t, u | t in at && u in at && Locks(at[t]) && Locks(at[u]) :: t == u
  }

  /** No reader while somebody writes. */
  ghost predicate Excluded(at: map<Thread, Place>) {
    forall t, u | t in at && u in at && at[t].Writing? :: !Shares(at[u])
  }

  lemma Moved(at: map<Thread, Place>, lock: int, t: Thread, p: Place)
    requires t in at && OneHolder(at, lock) && (Locks(p) && !Locks(at[t]) ==> lock == 0)
    ensures OneHolder(at[t := p], if Locks(p) == Locks(at[t]) then lock else if Locks(p) then 1 else 0)
  {
    var now := at[t := p];
    if lock == 1 {
      var h :| h in at && Locks(at[h]);
      if h != t { assert h in now && Locks(now[h]); }
    }
    if Locks(p) { assert t in now && Locks(now[t]); }
  }

  lemma Counted(at: map<Thread, Place>, readers: set<Thread>, t: Thread, p: Place)
    requires t in at && Readers(at, readers)
    ensures Readers(at[t := p], if Shares(p) then readers + {t} else readers - {t})
    ensures |if Shares(p) then readers + {t} else readers - {t}|
         == |readers| + (if Shares(p) then 1 else 0) - (if Shares(at[t]) then 1 else 0)
  {
  }

  lemma HolderWord(at: map<Thread, Place>, lock: int, t: Thread)
    requires t in at && OneHolder(at, lock)
    ensures (Locks(at[t]) ==> lock == 1) && (lock == 0 || lock == 1)
  {
  }

  class RWLock {
    var lock: int
    var counter: int
    var at: map<Thread, Place>
    var call: map<Thread, Choice>       // the operation a thread is in or returned from last
    ghost var readers: set<Thread>      // the threads with a read share

    ghost predicate Valid()
      reads this
    {
      OneHolder(at, lock) && Readers(at, readers) && counter == |readers| && Excluded(at) && Obeyed(at, call)
    }

    ghost function Seen(): View
      reads `lock, `counter, `at, `call
    {
      View(lock, counter, at, call)
    }

    constructor (threads: set<Thread>)
      ensures Valid() && lock == 0 && counter == 0 && call == map[]
      ensures at.Keys == threads && forall t | t in threads :: at[t] == Idle
    {
      lock, counter := 0, 0;
      at, call := map t | t in threads :: Idle, map[];
      readers := {};
    }

    /** What the step does to the two words. */
    method Words(p: Place, choice: Choice)
      requires Locks(p) ==> lock == 1
      requires lock == 0 || lock == 1
      modifies `lock, `counter
      ensures var q := Next(p, choice, old(lock), old(counter));
              && lock == (if Locks(q) == Locks(p) then old(lock) else if Locks(q) then 1 else 0)
              && counter == old(counter) + (if Shares(q) then 1 else 0) - (if Shares(p) then 1 else 0)
    {
      match p {
      case Idle =>
      case ReadWait => if lock == 0 { lock := 1; }
      case ReadInc => counter := counter + 1;
      case ReadOpen => lock := 0;
      case Reading => if choice == ReadUnlock || choice == ToWrite { counter := counter - 1; }
      case WriteWait => if lock == 0 { lock := 1; }
      case Drain =>
      case Writing => if choice == WriteUnlock { lock := 0; } else if choice == ToRead { counter := counter + 1; }
      case Down => lock := 0;
      }
    }

    /** The next atomic step of thread t; a thread at a taken spin lock, or draining, may stay where it is. */
    method Step(t: Thread, choice: Choice)
      requires Valid() && t in at
      modifies this
      ensures Valid() && at.Keys == old(at).Keys && forall u | u in at && u != t :: at[u] == old(at)[u]
      ensures at[t] == Next(old(at)[t], choice, old(lock), old(counter))
      ensures Moves(old(Seen()), t, choice, Seen())
    {
      hide OneHolder, Readers, Excluded, Next, Locks, Shares, Obeyed, Left, Waits, Moves, OnTheWay, Callable, AtRest;
      ghost var seen := Seen();
      var p := Next(at[t], choice, lock, counter);
      HolderWord(at, lock, t);
      Allowed(at[t], choice, lock, counter);
      Moved(at, lock, t, p);
      Counted(at, readers, t, p);
      WriterAlone(at, readers, t, p, lock, counter);
      Obeys(at, call, t, choice, lock, counter);
      Words(at[t], choice);
      readers := if Shares(p) then readers + {t} else readers - {t};
      if AtRest(at[t]) && Callable(at[t], choice) {
        call := call[t := choice];
      }
      at := at[t := p];
      MovesOn(seen, t, choice, Seen());
    }
  }

  lemma MovesOn(s: View, t: Thread, choice: Choice, n: View)
    requires t in s.at && n.at == s.at[t := Next(s.at[t], choice, s.lock, s.counter)]
    requires Obeyed(s.at, s.call)
    requires n.call == if AtRest(s.at[t]) && Callable(s.at[t], choice) then s.call[t := choice] else s.call
    requires n.at == s.at ==> n.lock == s.lock && n.counter == s.counter
    ensures Moves(s, t, choice, n)
  {
  }

  lemma Obeys(at: map<Thread, Place>, call: map<Thread, Choice>, t: Thread, choice: Choice, lock: int, counter: int)
    requires t in at && Obeyed(at, call)
    ensures Obeyed(at[t := Next(at[t], choice, lock, counter)],
                   if AtRest(at[t]) && Callable(at[t], choice) then call[t := choice] else call)
  {
  }

  lemma Allowed(p: Place, choice: Choice, lock: int, counter: int)
    ensures var q := Next(p, choice, lock, counter);
            && (Locks(q) && !Locks(p) ==> lock == 0)
            && (q.Writing? && !p.Writing? ==> p.Drain? && counter == 0)
            && (Shares(q) && !Shares(p) ==> Locks(p))
            && if AtRest(p) then q != p <==> Callable(p, choice)
               else if Waits(p, lock, counter) then q == p
               else Left(q) == Left(p) - 1
  {
  }

  /** The place after the next atomic step. */
  function Next(p: Place, choice: Choice, lock: int, counter: int): Place {
    match p
    case Idle => if choice == ReadLock then ReadWait else if choice == WriteLock then WriteWait else Idle
    case ReadWait => if lock == 0 then ReadInc else ReadWait
    case ReadInc => ReadOpen
    case ReadOpen => Reading
    case Reading => if choice == ReadUnlock then Idle else if choice == ToWrite then WriteWait else Reading
    case WriteWait => if lock == 0 then Drain else WriteWait
    case Drain => if counter != 0 then Drain else Writing
    case Writing => if choice == WriteUnlock then Idle else if choice == ToRead then Down else Writing
    case Down => Reading
  }

  lemma WriterAlone(at: map<Thread, Place>, readers: set<Thread>, t: Thread, p: Place, lock: int, counter: int)
    requires t in at && Readers(at, readers) && counter == |readers| && Excluded(at)
    requires OneHolder(at, lock)
    requires p.Writing? && !at[t].Writing? ==> at[t].Drain? && counter == 0
    requires Shares(p) && !Shares(at[t]) ==> Locks(at[t])
    ensures Excluded(at[t := p])
  {
    var now := at[t := p];
    forall w, u | w in now && u in now && now[w].Writing?
      ensures !Shares(now[u])
    {
      if w == t && !at[t].Writing? {
        assert readers == {};
        assert u in readers <==> Shares(at[u]);
      } else if u == t && w != t {
        assert Locks(at[w]);
      }
    }
  }

  /** The steps to the end of an operation. */
  function Left(p: Place): nat {
    match p
    case Idle => 0
    case ReadWait => 3
    case ReadInc => 2
    case ReadOpen => 1
    case Reading => 0
    case WriteWait => 2
    case Drain => 1
    case Writing => 0
    case Down => 1
  }

  /** A thread waits for the spin lock while somebody has it, and with the spin lock while there are readers. */
  predicate Waits(p: Place, lock: int, counter: int) {
    if p.ReadWait? || p.WriteWait? then lock != 0 else p.Drain? && counter != 0
  }

  /** Nobody is stuck for good: if a thread waits, some thread is on its way, or reads or writes and can end that. */
  lemma SomebodyMoves(at: map<Thread, Place>, readers: set<Thread>, lock: int, counter: int, t: Thread)
    returns (u: Thread, choice: Choice)
    requires OneHolder(at, lock) && Readers(at, readers) && counter == |readers| && Excluded(at)
    requires t in at && (at[t].ReadWait? || at[t].WriteWait? || at[t].Drain?)
    ensures u in at && at[u] != Idle && Next(at[u], choice, lock, counter) != at[u]
    ensures if at[u].Reading? then choice == ReadUnlock else if at[u].Writing? then choice == WriteUnlock
            else Left(Next(at[u], choice, lock, counter)) == Left(at[u]) - 1
  {
    if lock == 0 {
      u, choice := t, ReadLock;
    } else {
      var h :| h in at && Locks(at[h]);
      if at[h].Drain? && counter != 0 {
        assert readers != {};
        u :| u in readers;
        choice := ReadUnlock;
      } else {
        u, choice := h, WriteUnlock;
      }
    }
  }

  // ---------- whole runs ----------

  datatype View = View(lock: int, counter: int, at: map<Thread, Place>, call: map<Thread, Choice>)

  /** Thread t, told choice, leads from s to n: it begins a call that it may make, waits, or comes one step nearer to
      the end of its call; the other threads stay. */
  ghost predicate Moves(s: View, t: Thread, choice: Choice, n: View) {
    && t in s.at && t in n.at && n.at == s.at[t := n.at[t]]
    && var (p, q) := (s.at[t], n.at[t]);
       if AtRest(p) then
         if Callable(p, choice) then q != p && OnTheWay(q, choice) && n.call == s.call[t := choice] else n == s
       else if Waits(p, s.lock, s.counter) then n == s
       else Left(q) == Left(p) - 1 && t in s.call && OnTheWay(q, s.call[t]) && n.call == s.call
  }

  /** The moves of a schedule, from a fresh lock: what a thread has when its last call has returned, and that a
      thread that returned from WriteLock() or ReadLockToWrite() is alone. */
  method Run(threads: set<Thread>, schedule: seq<(Thread, Choice)>) returns (rw: RWLock, ghost trace: seq<View>)
    requires forall k | 0 <= k < |schedule| :: schedule[k].0 in threads
    ensures |trace| == |schedule| + 1 && trace[0] == View(0, 0, map t | t in threads :: Idle, map[])
    ensures forall k | 0 <= k < |schedule| :: Moves(trace[k], schedule[k].0, schedule[k].1, trace[k + 1])
    ensures trace[|schedule|] == rw.Seen() && rw.Valid() && rw.at.Keys == threads
    ensures forall t, u | t in rw.at && u in rw.at && rw.at[t].Writing?
            && (rw.at[u].Writing? || rw.at[u].Reading?) :: t == u && rw.at[u].Writing?
    ensures forall t | t in rw.call && (rw.at[t].Idle? || rw.at[t].Reading? || rw.at[t].Writing?)
              :: && (rw.at[t].Writing? <==> rw.call[t] == WriteLock || rw.call[t] == ToWrite)
                 && (rw.at[t].Reading? <==> rw.call[t] == ReadLock || rw.call[t] == ToRead)
                 && (rw.at[t].Idle? <==> rw.call[t] == ReadUnlock || rw.call[t] == WriteUnlock)
    ensures forall t | t in threads && t !in rw.call :: rw.at[t].Idle?
    ensures forall t, u | t in rw.call && u in rw.call && AtRest(rw.at[t]) && AtRest(rw.at[u])
              :: rw.call[t] == WriteLock && rw.call[u] == WriteLock ==> t == u
  {
    hide OneHolder, Readers, Excluded, Obeyed, Moves, AtRest;
    rw := new RWLock(threads);
    trace := [rw.Seen()];
    for k := 0 to |schedule|
      invariant fresh(rw) && rw.Valid() && rw.at.Keys == threads
      invariant |trace| == k + 1 && trace[0] == View(0, 0, map t | t in threads :: Idle, map[])
      invariant trace[k] == rw.Seen()
      invariant forall j | 0 <= j < k :: Moves(trace[j], schedule[j].0, schedule[j].1, trace[j + 1])
    {
      rw.Step(schedule[k].0, schedule[k].1);
      trace := trace + [rw.Seen()];
    }
    Returned(rw.at, rw.call, rw.lock);
  }

  /** What a thread has when its last call has returned. */
  lemma Returned(at: map<Thread, Place>, call: map<Thread, Choice>, lock: int)
    requires OneHolder(at, lock) && Excluded(at) && Obeyed(at, call)
    ensures forall t, u | t in at && u in at && at[t].Writing? && (at[u].Writing? || at[u].Reading?)
              :: t == u && at[u].Writing?
    ensures forall t | t in call && (at[t].Idle? || at[t].Reading? || at[t].Writing?)
              :: && (at[t].Writing? <==> call[t] == WriteLock || call[t] == ToWrite)
                 && (at[t].Reading? <==> call[t] == ReadLock || call[t] == ToRead)
                 && (at[t].Idle? <==> call[t] == ReadUnlock || call[t] == WriteUnlock)
    ensures forall t | t in at && t !in call :: at[t].Idle?
    ensures forall t, u | t in call && u in call && AtRest(at[t]) && AtRest(at[u])
              :: call[t] == WriteLock && call[u] == WriteLock ==> t == u
  {
  }
}
