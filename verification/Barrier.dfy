/** The reusable barrier of PARSEC as steps of any number of threads
    (apps/edge-streamcluster/parsec_barrier.cpp:50-79, 127-208). It stands in for
    pthread_barrier_wait of IEEE Std 1003.1-2017, System Interfaces. */
module Barrier {

  /** Where a thread is in parsec_barrier_wait. 'first' marks the test before spinning. */
  datatype Pc =
    | Out | Locking
    | EntryTest(first: bool) | EntrySleep | EntryWake | EntrySpin(i: nat) | EntryTry
    | Arriving | Arrived
    | LeaveTest(first: bool) | LeaveSleep | LeaveWake | LeaveSpin(i: nat) | LeaveTry
    | Leaving | Left | Unlocking

  /** 'master' is the local variable; 'round' says which use of the barrier this is. */
  datatype Thread = Thread(pc: Pc, master: bool, round: nat)

  /** What a call returned: PARSEC_BARRIER_SERIAL_THREAD or 0. */
  datatype Return = Return(tid: nat, serial: bool)

  /** The history of one use: who came, who left, and what calls returned. */
  datatype Round = Round(entrants: seq<nat>, leavers: seq<nat>, results: seq<Return>)

  datatype Owner = Nobody | Owner(tid: nat)

  datatype State = State(threads: seq<Thread>, owner: Owner, n: int, arrival: bool, log: seq<Round>)

  /** The barrier: how many threads it waits for, and which variant is compiled. */
  datatype Config = Config(max: nat, spin: bool, spinMax: nat)

  predicate Holding(pc: Pc) {
    match pc
    case EntryTest(_) => true
    case Arriving => true
    case Arrived => true
    case LeaveTest(_) => true
    case Leaving => true
    case Left => true
    case Unlocking => true
    case _ => false
  }

  /** Counted by 'n'. */
  predicate Inside(pc: Pc) {
    match pc
    case Arrived => true
    case LeaveTest(_) => true
    case LeaveSleep => true
    case LeaveWake => true
    case LeaveSpin(_) => true
    case LeaveTry => true
    case Leaving => true
    case _ => false
  }

  /** pthread_cond_broadcast */
  function Wake(t: Thread): Thread {
    match t.pc
    case EntrySleep => t.(pc := EntryWake)
    case LeaveSleep => t.(pc := LeaveWake)
    case _ => t
  }

  function Woken(ts: seq<Thread>): (r: seq<Thread>)
    ensures |r| == |ts| && forall i :: 0 <= i < |ts| ==> r[i] == Wake(ts[i])
  {
    seq(|ts|, i requires 0 <= i < |ts| => Wake(ts[i]))
  }

  function At(s: State, t: nat, pc: Pc): State
    requires t < |s.threads|
  {
    s.(threads := s.threads[t := s.threads[t].(pc := pc)])
  }

  function Locked(s: State, t: nat, pc: Pc): State
    requires t < |s.threads|
  {
    At(s, t, pc).(owner := Owner(t))
  }

  function Unlocked(s: State, t: nat, pc: Pc): State
    requires t < |s.threads|
  {
    At(s, t, pc).(owner := Nobody)
  }

  function Last(s: State): nat
    requires |s.log| > 0
  {
    |s.log| - 1
  }

  function Logged(s: State, r: nat, e: Round): State
    requires r < |s.log|
  {
    s.(log := s.log[r := e])
  }

  /** parsec_barrier_init (parsec_barrier.cpp:71-73); no thread has called yet. */
  ghost predicate Init(s: State) {
    && (forall t :: 0 <= t < |s.threads| ==> s.threads[t].pc == Out)
    && s.owner == Nobody && s.n == 0 && s.arrival && s.log == [Round([], [], [])]
  }

  /** Thread 't' takes a step. */
  ghost predicate Step(c: Config, s: State, t: nat, s': State)
    requires t < |s.threads| && |s.log| > 0
  {
    var th := s.threads[t];
    match th.pc
    // a call begins
    case Out => s' == At(s, t, Locking)
    case Locking => s.owner == Nobody && s' == Locked(s, t, EntryTest(true))
    // until the previous round is over (parsec_barrier.cpp:135-164)
    case EntryTest(first) =>
      if s.arrival then s' == At(s, t, Arriving)
      else if c.spin && first then s' == Unlocked(s, t, EntrySpin(0))
      else s' == Unlocked(s, t, EntrySleep)
    case EntrySpin(i) =>
      s' == (if s.arrival || i >= c.spinMax then At(s, t, EntryTry) else At(s, t, EntrySpin(i + 1)))
    case EntryTry => s' == (if s.owner == Nobody then Locked(s, t, EntryTest(false)) else s)
    case EntrySleep => s' == At(s, t, EntryWake)
    case EntryWake => s.owner == Nobody && s' == Locked(s, t, EntryTest(false))
    // arrival (parsec_barrier.cpp:166-173)
    case Arriving =>
      var e := s.log[Last(s)];
      && s' == Logged(s.(threads := s.threads[t := Thread(Arrived, s.n == 0, Last(s))], n := s.n + 1),
                      Last(s), e.(entrants := e.entrants + [t]))
    case Arrived =>
      if s.n >= c.max then s' == At(s.(arrival := false, threads := Woken(s.threads)), t, Leaving)
      else s' == At(s, t, LeaveTest(true))
    // until the last thread has arrived (parsec_barrier.cpp:174-198)
    case LeaveTest(first) =>
      if !s.arrival then s' == At(s, t, Leaving)
      else if c.spin && first then s' == Unlocked(s, t, LeaveSpin(0))
      else s' == Unlocked(s, t, LeaveSleep)
    case LeaveSpin(i) =>
      s' == (if !s.arrival || i >= c.spinMax then At(s, t, LeaveTry) else At(s, t, LeaveSpin(i + 1)))
    case LeaveTry => s' == (if s.owner == Nobody then Locked(s, t, LeaveTest(false)) else s)
    case LeaveSleep => s' == At(s, t, LeaveWake)
    case LeaveWake => s.owner == Nobody && s' == Locked(s, t, LeaveTest(false))
    // departure (parsec_barrier.cpp:199-207)
    case Leaving =>
      var e := s.log[Last(s)];
      s' == Logged(At(s.(n := s.n - 1), t, Left), Last(s), e.(leavers := e.leavers + [t]))
    case Left =>
      if s.n == 0 then
        s' == At(s.(arrival := true, threads := Woken(s.threads), log := s.log + [Round([], [], [])]), t, Unlocking)
      else s' == At(s, t, Unlocking)
    case Unlocking =>
      th.round < |s.log|
      && var e := s.log[th.round];
         s' == Logged(Unlocked(s, t, Out), th.round, e.(results := e.results + [Return(t, th.master)]))
  }

  // ---------- the invariant ----------

  ghost predicate NoDup(s: seq<nat>) {
    forall i, j :: 0 <= i < j < |s| ==> s[i] != s[j]
  }

  function Tids(rs: seq<Return>): (s: seq<nat>)
    ensures |s| == |rs| && forall i :: 0 <= i < |s| ==> s[i] == rs[i].tid
  {
    seq(|rs|, i requires 0 <= i < |rs| => rs[i].tid)
  }

  ghost predicate RoundOK(e: Round, max: nat, threads: nat) {
    && NoDup(e.entrants) && NoDup(e.leavers) && NoDup(Tids(e.results)) && |e.entrants| <= max
    && (forall t :: t in e.entrants ==> t < threads)
    && (forall t :: t in e.leavers ==> t in e.entrants)
    && (forall r :: r in e.results ==> r.tid in e.leavers && e.entrants != [] && (r.serial <==> e.entrants[0] == r.tid))
  }

  /** A round that is over for the barrier: all have come and left. */
  ghost predicate Over(e: Round, max: nat) {
    |e.entrants| == max == |e.leavers|
  }

  ghost predicate MutexOK(s: State) {
    && (forall t :: 0 <= t < |s.threads| ==> (Holding(s.threads[t].pc) <==> s.owner == Owner(t)))
    && (s.owner.Owner? ==> s.owner.tid < |s.threads|)
  }

  ghost predicate LogOK(c: Config, s: State) {
    && |s.log| > 0
    && (forall r :: 0 <= r < |s.log| ==> RoundOK(s.log[r], c.max, |s.threads|))
    && (forall r :: 0 <= r < |s.log| - 1 ==> Over(s.log[r], c.max))
  }

  /** 'pc' is where the owner of the mutex is. */
  ghost predicate OwnerAt(s: State, pc: Pc) {
    s.owner.Owner? && s.owner.tid < |s.threads| && s.threads[s.owner.tid].pc == pc
  }

  ghost predicate PhaseOK(c: Config, s: State)
    requires |s.log| > 0
  {
    var e := s.log[Last(s)];
    && s.n == |e.entrants| - |e.leavers|
    && (if s.arrival then e.leavers == [] && (|e.entrants| == c.max ==> OwnerAt(s, Arrived))
        else |e.entrants| == c.max && (s.n == 0 ==> OwnerAt(s, Left)))
  }

  /** What is known of a thread from where it is. */
  ghost predicate ThreadOK(c: Config, s: State, t: nat)
    requires |s.log| > 0 && t < |s.threads|
  {
    var th := s.threads[t];
    && (Inside(th.pc) ==>
          var e := s.log[Last(s)];
          && th.round == Last(s) && t in e.entrants && t !in e.leavers && e.entrants != []
          && (th.master <==> e.entrants[0] == t))
    && (th.pc == Left || th.pc == Unlocking ==>
          th.round < |s.log|
          && var e := s.log[th.round];
             && t in e.leavers && |e.entrants| == c.max && t !in Tids(e.results) && e.entrants != []
             && (th.master <==> e.entrants[0] == t))
    && (th.pc == Left ==> th.round == Last(s) && !s.arrival)
    && (th.pc == Leaving ==> !s.arrival)
    && (th.pc == LeaveSleep ==> s.arrival)
    && (th.pc == EntrySleep ==> !s.arrival)
    && (th.pc == Arriving || th.pc == Arrived ==> s.arrival)
  }

  ghost predicate InsideNow(s: State, t: nat) {
    t < |s.threads| && Inside(s.threads[t].pc)
  }

  ghost predicate AboutToReturn(s: State, r: nat, t: nat) {
    t < |s.threads| && (s.threads[t].pc == Left || s.threads[t].pc == Unlocking) && s.threads[t].round == r
  }

  /** Who has come and not left is inside; who has left has returned, or is about to. */
  ghost predicate HistoryOK(s: State)
    requires |s.log| > 0
  {
    && (forall t: nat :: t in s.log[Last(s)].entrants && t !in s.log[Last(s)].leavers ==> InsideNow(s, t))
    && (forall r: nat, t: nat :: r < |s.log| && t in s.log[r].leavers && t !in Tids(s.log[r].results) ==> AboutToReturn(s, r, t))
  }

  ghost predicate Inv(c: Config, s: State) {
    && c.max > 0 && MutexOK(s) && LogOK(c, s) && PhaseOK(c, s) && HistoryOK(s)
    && forall t :: 0 <= t < |s.threads| ==> ThreadOK(c, s, t)
  }

  lemma InitInv(c: Config, s: State)
    requires c.max > 0 && Init(s)
    ensures Inv(c, s)
  {
    assert Tids([]) == [];
  }

  // ---------- every step keeps it ----------

  /** Steps that change only where 't' is, and who has the mutex. */
  lemma QuietStep(c: Config, s: State, t: nat, pc: Pc, o: Owner)
    requires Inv(c, s) && t < |s.threads|
    requires var was := s.threads[t].pc;
             && Inside(was) == Inside(pc) && was != Left && was != Unlocking && pc != Left && pc != Unlocking && pc != Arrived
             && (was == Arrived ==> s.n < c.max)
             && (if s.owner == Owner(t) then (if Holding(pc) then o == s.owner else o == Nobody)
                 else if Holding(pc) then s.owner == Nobody && o == Owner(t) else o == s.owner)
    requires (pc == Leaving || pc == EntrySleep ==> !s.arrival) && (pc == LeaveSleep || pc == Arriving ==> s.arrival)
    ensures Inv(c, At(s, t, pc).(owner := o))
  {
    hide RoundOK;
    var s' := At(s, t, pc).(owner := o);
    assert ThreadOK(c, s, t);
    forall u | 0 <= u < |s'.threads| ensures ThreadOK(c, s', u) {
      assert ThreadOK(c, s, u);
      QuietOther(c, s, t, pc, o, u);
    }
    HistoryKept(s, s');
    assert MutexOK(s') && LogOK(c, s') && PhaseOK(c, s');
  }

  lemma QuietOther(c: Config, s: State, t: nat, pc: Pc, o: Owner, u: nat)
    requires t < |s.threads| && |s.log| > 0 && u < |s.threads| && ThreadOK(c, s, u)
    requires Inside(s.threads[t].pc) == Inside(pc) && pc != Left && pc != Unlocking && pc != Arrived
    requires (pc == Leaving || pc == EntrySleep ==> !s.arrival) && (pc == LeaveSleep || pc == Arriving ==> s.arrival)
    ensures ThreadOK(c, At(s, t, pc).(owner := o), u)
  {
    if u != t {
      assert At(s, t, pc).(owner := o).threads[u] == s.threads[u];
    }
  }

  /** The history holds as long as threads stay on their side of the door. */
  lemma HistoryKept(s: State, s': State)
    requires |s.log| > 0 && s'.log == s.log && |s'.threads| == |s.threads| && HistoryOK(s)
    requires forall u :: 0 <= u < |s.threads| ==> Inside(s.threads[u].pc) ==> Inside(s'.threads[u].pc)
    requires forall u :: 0 <= u < |s.threads| && (s.threads[u].pc == Left || s.threads[u].pc == Unlocking) ==>
               (s'.threads[u].pc == Left || s'.threads[u].pc == Unlocking) && s'.threads[u].round == s.threads[u].round
    ensures HistoryOK(s')
  {
    forall t: nat | InsideNow(s, t) ensures InsideNow(s', t) {
    }
    forall r: nat, t: nat | AboutToReturn(s, r, t) ensures AboutToReturn(s', r, t) {
    }
  }

  lemma ArriveStep(c: Config, s: State, t: nat, s': State)
    requires Inv(c, s) && t < |s.threads| && s.threads[t].pc == Arriving && Step(c, s, t, s')
    ensures Inv(c, s')
  {
    var l := Last(s);
    var e, e' := s.log[l], s'.log[l];
    assert ThreadOK(c, s, t);
    assert t !in e.entrants;
    assert |e.entrants| < c.max;
    assert NoDup(e'.entrants);
    assert RoundOK(e', c.max, |s.threads|) by {
      assert RoundOK(e, c.max, |s.threads|);
    }
    forall u | 0 <= u < |s'.threads| ensures ThreadOK(c, s', u) {
      assert ThreadOK(c, s, u);
      if u != t && s.threads[u].round < |s.log| {
        assert s'.log[s.threads[u].round].leavers == s.log[s.threads[u].round].leavers;
      }
    }
    assert HistoryOK(s');
  }

  lemma FullStep(c: Config, s: State, t: nat, s': State)
    requires Inv(c, s) && t < |s.threads| && s.threads[t].pc == Arrived && s.n >= c.max && Step(c, s, t, s')
    ensures Inv(c, s')
  {
    assert ThreadOK(c, s, t);
    assert RoundOK(s.log[Last(s)], c.max, |s.threads|);
    forall u | 0 <= u < |s'.threads| ensures ThreadOK(c, s', u) {
      assert ThreadOK(c, s, u);
    }
    assert MutexOK(s');
  }

  lemma LeaveStep(c: Config, s: State, t: nat, s': State)
    requires Inv(c, s) && t < |s.threads| && s.threads[t].pc == Leaving && Step(c, s, t, s')
    ensures Inv(c, s')
  {
    var l := Last(s);
    var e, e' := s.log[l], s'.log[l];
    assert ThreadOK(c, s, t);
    assert RoundOK(e, c.max, |s.threads|);
    assert NoDup(e'.leavers);
    assert forall u :: u in e'.leavers <==> u in e.leavers || u == t;
    assert t !in Tids(e.results) by {
      forall i | 0 <= i < |e.results| ensures Tids(e.results)[i] != t {
        assert e.results[i] in e.results;
      }
    }
    forall u | 0 <= u < |s'.threads| ensures ThreadOK(c, s', u) {
      assert ThreadOK(c, s, u);
    }
    assert MutexOK(s') && LogOK(c, s') && HistoryOK(s');
  }

  lemma SomeLeftStep(c: Config, s: State, t: nat, s': State)
    requires Inv(c, s) && t < |s.threads| && s.threads[t].pc == Left && s.n != 0 && Step(c, s, t, s')
    ensures Inv(c, s')
  {
    hide RoundOK;
    assert ThreadOK(c, s, t);
    forall u | 0 <= u < |s'.threads| ensures ThreadOK(c, s', u) {
      assert ThreadOK(c, s, u);
    }
    HistoryKept(s, s');
    assert MutexOK(s') && LogOK(c, s');
  }

  lemma LastLeftStep(c: Config, s: State, t: nat, s': State)
    requires Inv(c, s) && t < |s.threads| && s.threads[t].pc == Left && s.n == 0 && Step(c, s, t, s')
    ensures Inv(c, s')
  {
    var e := s.log[Last(s)];
    assert ThreadOK(c, s, t);
    assert RoundOK(e, c.max, |s.threads|);
    AllLeft(e);
    assert Over(e, c.max);
    forall u | 0 <= u < |s'.threads| ensures ThreadOK(c, s', u) {
      assert ThreadOK(c, s, u);
    }
    assert Tids([]) == [];
    assert MutexOK(s') && LogOK(c, s') && HistoryOK(s');
  }

  /** As many have left as have come: so all have. */
  lemma AllLeft(e: Round)
    requires NoDup(e.entrants) && NoDup(e.leavers) && (forall t :: t in e.leavers ==> t in e.entrants)
    requires |e.leavers| == |e.entrants|
    ensures forall t :: t in e.entrants ==> t in e.leavers
  {
    Size(e.entrants);
    Size(e.leavers);
    assert Elems(e.leavers) <= Elems(e.entrants);
    var rest := Elems(e.entrants) - Elems(e.leavers);
    assert Elems(e.entrants) == Elems(e.leavers) + rest;
    assert rest == {};
    forall t | t in e.entrants ensures t in e.leavers {
      assert t in Elems(e.entrants) && t !in rest;
    }
  }

  ghost function Elems(s: seq<nat>): set<nat> {
    set x | x in s
  }

  lemma {:induction false} Size(s: seq<nat>)
    requires NoDup(s)
    ensures |Elems(s)| == |s|
  {
    if s != [] {
      var t, x := s[..|s| - 1], s[|s| - 1];
      assert s == t + [x];
      assert forall i :: 0 <= i < |t| ==> t[i] == s[i];
      Size(t);
      assert Elems(s) == Elems(t) + {x};
    }
  }

  lemma ReturnStep(c: Config, s: State, t: nat, s': State)
    requires Inv(c, s) && t < |s.threads| && s.threads[t].pc == Unlocking && Step(c, s, t, s')
    ensures Inv(c, s')
  {
    var r := s.threads[t].round;
    var e, e' := s.log[r], s'.log[r];
    assert ThreadOK(c, s, t);
    assert RoundOK(e, c.max, |s.threads|);
    assert Tids(e'.results) == Tids(e.results) + [t];
    assert RoundOK(e', c.max, |s.threads|);
    forall u | 0 <= u < |s'.threads| ensures ThreadOK(c, s', u) {
      assert ThreadOK(c, s, u);
    }
    assert forall u :: 0 <= u < |s.threads| && u != t ==> s'.threads[u] == s.threads[u];
    assert MutexOK(s') && LogOK(c, s') && HistoryOK(s');
  }

  lemma EntryStep(c: Config, s: State, t: nat, s': State)
    requires Inv(c, s) && t < |s.threads| && Step(c, s, t, s')
    requires var pc := s.threads[t].pc;
             pc.Out? || pc.Locking? || pc.EntryTest? || pc.EntrySleep? || pc.EntryWake? || pc.EntrySpin? || pc.EntryTry?
    ensures Inv(c, s')
  {
    hide Inv, ThreadOK, LogOK, HistoryOK, PhaseOK, MutexOK;
    MutexAt(c, s, t);
    match s.threads[t].pc {
      case Out => QuietStep(c, s, t, Locking, s.owner);
      case Locking => QuietStep(c, s, t, EntryTest(true), Owner(t));
      case EntryTest(first) =>
        if s.arrival {
          QuietStep(c, s, t, Arriving, s.owner);
        } else if c.spin && first {
          QuietStep(c, s, t, EntrySpin(0), Nobody);
        } else {
          QuietStep(c, s, t, EntrySleep, Nobody);
        }
      case EntrySpin(i) => QuietStep(c, s, t, if s.arrival || i >= c.spinMax then EntryTry else EntrySpin(i + 1), s.owner);
      case EntryTry =>
        if s.owner == Nobody {
          QuietStep(c, s, t, EntryTest(false), Owner(t));
        }
      case EntrySleep => QuietStep(c, s, t, EntryWake, s.owner);
      case EntryWake => QuietStep(c, s, t, EntryTest(false), Owner(t));
    }
  }

  lemma WaitStep(c: Config, s: State, t: nat, s': State)
    requires Inv(c, s) && t < |s.threads| && Step(c, s, t, s')
    requires var pc := s.threads[t].pc;
             pc.LeaveTest? || pc.LeaveSleep? || pc.LeaveWake? || pc.LeaveSpin? || pc.LeaveTry?
    ensures Inv(c, s')
  {
    hide Inv, ThreadOK, LogOK, HistoryOK, PhaseOK, MutexOK;
    MutexAt(c, s, t);
    match s.threads[t].pc {
      case LeaveTest(first) =>
        if !s.arrival {
          QuietStep(c, s, t, Leaving, s.owner);
        } else if c.spin && first {
          QuietStep(c, s, t, LeaveSpin(0), Nobody);
        } else {
          QuietStep(c, s, t, LeaveSleep, Nobody);
        }
      case LeaveSpin(i) => QuietStep(c, s, t, if !s.arrival || i >= c.spinMax then LeaveTry else LeaveSpin(i + 1), s.owner);
      case LeaveTry =>
        if s.owner == Nobody {
          QuietStep(c, s, t, LeaveTest(false), Owner(t));
        }
      case LeaveSleep => QuietStep(c, s, t, LeaveWake, s.owner);
      case LeaveWake => QuietStep(c, s, t, LeaveTest(false), Owner(t));
    }
  }

  /** Safety's engine: every step of every thread keeps the invariant. */
  lemma StepInv(c: Config, s: State, t: nat, s': State)
    requires Inv(c, s) && t < |s.threads| && Step(c, s, t, s')
    ensures Inv(c, s')
  {
    hide Inv, ThreadOK, LogOK, HistoryOK, PhaseOK, MutexOK, Step;
    MutexAt(c, s, t);
    match s.threads[t].pc {
      case Arriving => ArriveStep(c, s, t, s');
      case Arrived =>
        if s.n >= c.max {
          FullStep(c, s, t, s');
        } else {
          NotFullStep(c, s, t, s');
        }
      case Leaving => LeaveStep(c, s, t, s');
      case Left =>
        if s.n == 0 {
          LastLeftStep(c, s, t, s');
        } else {
          SomeLeftStep(c, s, t, s');
        }
      case Unlocking => ReturnStep(c, s, t, s');
      case LeaveTest(_) => WaitStep(c, s, t, s');
      case LeaveSleep => WaitStep(c, s, t, s');
      case LeaveWake => WaitStep(c, s, t, s');
      case LeaveSpin(_) => WaitStep(c, s, t, s');
      case LeaveTry => WaitStep(c, s, t, s');
      case _ => EntryStep(c, s, t, s');
    }
  }

  lemma NotFullStep(c: Config, s: State, t: nat, s': State)
    requires Inv(c, s) && t < |s.threads| && s.threads[t].pc == Arrived && s.n < c.max && Step(c, s, t, s')
    ensures Inv(c, s')
  {
    hide Inv, ThreadOK, LogOK, HistoryOK, PhaseOK, MutexOK;
    MutexAt(c, s, t);
    QuietStep(c, s, t, LeaveTest(true), s.owner);
  }

  lemma MutexAt(c: Config, s: State, t: nat)
    requires Inv(c, s) && t < |s.threads|
    ensures |s.log| > 0 && (Holding(s.threads[t].pc) <==> s.owner == Owner(t))
  {
  }

  // ---------- runs ----------

  /** Threads take steps one at a time, in any order. */
  ghost predicate Run(c: Config, ss: seq<State>) {
    && |ss| > 0 && Init(ss[0])
    && forall i :: 0 <= i < |ss| - 1 ==> SomeStep(c, ss[i], ss[i + 1])
  }

  ghost predicate SomeStep(c: Config, s: State, s': State) {
    |s.log| > 0 && exists t: nat :: t < |s.threads| && Step(c, s, t, s')
  }

  /** The invariant holds throughout every run. */
  lemma {:induction false} RunInv(c: Config, ss: seq<State>, i: nat)
    requires c.max > 0 && Run(c, ss) && i < |ss|
    ensures Inv(c, ss[i])
  {
    if i == 0 {
      InitInv(c, ss[0]);
    } else {
      RunInv(c, ss, i - 1);
      assert SomeStep(c, ss[i - 1], ss[i - 1 + 1]);
      var t: nat :| t < |ss[i - 1].threads| && Step(c, ss[i - 1], t, ss[i]);
      StepInv(c, ss[i - 1], t, ss[i]);
    }
  }

  // ---------- what the barrier promises ----------

  /** No thread is on its way out, and no call has returned, before 'max' threads have
      come to its round. */
  lemma NoEarlyReturn(c: Config, ss: seq<State>, i: nat)
    requires c.max > 0 && Run(c, ss) && i < |ss|
    ensures forall t: nat :: t < |ss[i].threads| && ss[i].threads[t].pc in {Leaving, Left, Unlocking} ==>
              ss[i].threads[t].round < |ss[i].log| && |ss[i].log[ss[i].threads[t].round].entrants| == c.max
    ensures forall r: nat :: r < |ss[i].log| && ss[i].log[r].results != [] ==> |ss[i].log[r].entrants| == c.max
  {
    var s := ss[i];
    RunInv(c, ss, i);
    forall t: nat | t < |s.threads| && s.threads[t].pc in {Leaving, Left, Unlocking}
      ensures s.threads[t].round < |s.log| && |s.log[s.threads[t].round].entrants| == c.max
    {
      assert ThreadOK(c, s, t);
    }
    forall r: nat | r < |s.log| && s.log[r].results != [] ensures |s.log[r].entrants| == c.max {
      assert RoundOK(s.log[r], c.max, |s.threads|);
      assert s.log[r].results[0] in s.log[r].results;
    }
  }

  /** In a round, different threads return; never two with the serial value, and exactly
      one once all have returned. */
  lemma OneSerial(c: Config, ss: seq<State>, i: nat, r: nat)
    requires c.max > 0 && Run(c, ss) && i < |ss| && r < |ss[i].log|
    ensures var rs := ss[i].log[r].results;
            && NoDup(Tids(rs))
            && (forall j, k :: 0 <= j < k < |rs| ==> !(rs[j].serial && rs[k].serial))
            && (|rs| == c.max ==> exists j :: 0 <= j < |rs| && rs[j].serial)
  {
    var s := ss[i];
    RunInv(c, ss, i);
    var e := s.log[r];
    assert RoundOK(e, c.max, |s.threads|);
    assert forall j :: 0 <= j < |e.results| ==> e.results[j] in e.results;
    forall j, k | 0 <= j < k < |e.results| ensures !(e.results[j].serial && e.results[k].serial) {
      assert Tids(e.results)[j] != Tids(e.results)[k];
    }
    if |e.results| == c.max {
      assert e.results[0] in e.results;
      NoEarlyReturn(c, ss, i);
      var first := e.entrants[0];
      assert forall t :: t in Tids(e.results) ==> t in e.entrants;
      AllLeft(Round(e.entrants, Tids(e.results), []));
      assert first in Tids(e.results);
      var j :| 0 <= j < |e.results| && Tids(e.results)[j] == first;
      assert e.results[j].serial;
    }
  }

  ghost function InsideSet(s: State): set<nat> {
    set t: nat | t < |s.threads| && Inside(s.threads[t].pc)
  }

  /** 'n' counts the threads that have come and not left. */
  lemma NCounts(c: Config, ss: seq<State>, i: nat)
    requires c.max > 0 && Run(c, ss) && i < |ss|
    ensures ss[i].n == |InsideSet(ss[i])| <= c.max
  {
    var s := ss[i];
    RunInv(c, ss, i);
    var e := s.log[Last(s)];
    assert RoundOK(e, c.max, |s.threads|);
    Size(e.entrants);
    Size(e.leavers);
    forall t | t in Elems(e.entrants) - Elems(e.leavers) ensures t in InsideSet(s) {
      assert InsideNow(s, t);
    }
    forall t | t in InsideSet(s) ensures t in Elems(e.entrants) - Elems(e.leavers) {
      assert ThreadOK(c, s, t);
    }
    assert InsideSet(s) == Elems(e.entrants) - Elems(e.leavers);
    assert Elems(e.leavers) <= Elems(e.entrants);
    assert Elems(e.entrants) == Elems(e.leavers) + InsideSet(s);
  }

  /** No thread sleeps on a condition that already holds. */
  lemma NoLostWakeup(c: Config, ss: seq<State>, i: nat, t: nat)
    requires c.max > 0 && Run(c, ss) && i < |ss| && t < |ss[i].threads|
    ensures ss[i].threads[t].pc == EntrySleep ==> !ss[i].arrival
    ensures ss[i].threads[t].pc == LeaveSleep ==> ss[i].arrival
  {
    RunInv(c, ss, i);
    assert ThreadOK(c, ss[i], t);
  }

  /** 't' can go on by itself. */
  predicate CanMove(s: State, t: nat)
    requires t < |s.threads|
  {
    match s.threads[t].pc
    case Out => false
    case EntrySleep => false
    case LeaveSleep => false
    case Locking => s.owner == Nobody
    case EntryWake => s.owner == Nobody
    case EntryTry => s.owner == Nobody
    case LeaveWake => s.owner == Nobody
    case LeaveTry => s.owner == Nobody
    case _ => true
  }

  lemma HoldersMove(s: State)
    ensures forall t: nat :: t < |s.threads| && Holding(s.threads[t].pc) ==> CanMove(s, t)
  {
  }

  /** If no call can go on, the barrier waits for threads that have not come yet: all
      calls are asleep in an arrival phase with fewer than 'max' threads. */
  lemma NotStuck(c: Config, ss: seq<State>, i: nat)
    requires c.max > 0 && Run(c, ss) && i < |ss| && forall t: nat :: t < |ss[i].threads| ==> !CanMove(ss[i], t)
    ensures ss[i].arrival && ss[i].n < c.max
    ensures forall t: nat :: t < |ss[i].threads| ==> ss[i].threads[t].pc in {Out, LeaveSleep}
  {
    var s := ss[i];
    RunInv(c, ss, i);
    NCounts(c, ss, i);
    HoldersMove(s);
    assert s.owner == Nobody;
    forall t: nat | t < |s.threads| ensures s.threads[t].pc in {Out, EntrySleep, LeaveSleep} {
      assert !CanMove(s, t);
    }
    forall t | t in InsideSet(s) ensures s.arrival {
      assert ThreadOK(c, s, t);
    }
    forall t: nat | t < |s.threads| ensures s.threads[t].pc in {Out, LeaveSleep} {
      assert ThreadOK(c, s, t);
    }
  }
}
