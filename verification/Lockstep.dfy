// Two threads counting in turns.  The main thread locks the mutex and the second
// thread unlocks it; each then counts once, and waits, releasing and taking the
// mutex, until the other has caught up.
module Lockstep {

  datatype Thread = MainThread | SecondThread

  // Where each thread is.  A thread waits in Compare .. Retake.
  datatype MainAt = MLock | MCount | MCompare | MCheckExit | MRelease | MRetake | MUnlock | MRepeat | MDone
  datatype SecondAt = STest | SUnlock | SCount | SLock | SCompare | SRelease | SRetake | SUnlockLast | SSignal | SDone

  // Who locked the mutex, if it is locked.
  datatype Holder = Nobody | Held(thread: Thread)

  datatype State = State(
    main: MainAt,
    second: SecondAt,
    holder: Holder,
    iterationMain: nat,
    iterationSecond: nat,
    shouldExit: bool)

  const START := State(MLock, STest, Held(MainThread), 0, 0, false)

  // Taking the mutex blocks while it is locked; a thread that is done is done.
  predicate Enabled(s: State, who: Thread) {
    match who
    case MainThread => s.main != MDone && (s.main in {MLock, MRetake} ==> s.holder == Nobody)
    case SecondThread => s.second != SDone && (s.second in {SLock, SRetake} ==> s.holder == Nobody)
  }

  function MainStep(s: State): State
    requires Enabled(s, MainThread)
  {
    match s.main
    case MLock => s.(holder := Held(MainThread), main := MCount)
    case MCount => s.(iterationMain := s.iterationMain + 1, main := MCompare)
    case MCompare => s.(main := if s.iterationMain >= s.iterationSecond then MCheckExit else MUnlock)
    case MCheckExit => s.(main := if !s.shouldExit then MRelease else MUnlock)
    case MRelease => s.(holder := Nobody, main := MRetake)
    case MRetake => s.(holder := Held(MainThread), main := MCompare)
    case MUnlock => s.(holder := Nobody, main := MRepeat)
    case MRepeat => s.(main := if !s.shouldExit then MLock else MDone)
  }

  // The second thread counts without holding the mutex.
  function SecondStep(n: nat, s: State): State
    requires Enabled(s, SecondThread)
  {
    match s.second
    case STest => s.(second := if s.iterationSecond < n then SUnlock else SUnlockLast)
    case SUnlock => s.(holder := Nobody, second := SCount)
    case SCount => s.(iterationSecond := s.iterationSecond + 1, second := SLock)
    case SLock => s.(holder := Held(SecondThread), second := SCompare)
    case SCompare => s.(second := if s.iterationSecond > s.iterationMain then SRelease else STest)
    case SRelease => s.(holder := Nobody, second := SRetake)
    case SRetake => s.(holder := Held(SecondThread), second := SCompare)
    case SUnlockLast => s.(holder := Nobody, second := SSignal)
    case SSignal => s.(shouldExit := true, second := SDone)
  }

  function Step(n: nat, s: State, who: Thread): State
    requires Enabled(s, who)
  {
    match who
    case MainThread => MainStep(s)
    case SecondThread => SecondStep(n, s)
  }

  // A schedule names the thread that moves at each step.
  predicate Possible(n: nat, s: State, schedule: seq<Thread>)
    decreases |schedule|
  {
    schedule == [] || (Enabled(s, schedule[0]) && Possible(n, Step(n, s, schedule[0]), schedule[1..]))
  }

  function After(n: nat, s: State, schedule: seq<Thread>): State
    requires Possible(n, s, schedule)
    decreases |schedule|
  {
    if schedule == [] then s else After(n, Step(n, s, schedule[0]), schedule[1..])
  }

  predicate Finished(s: State) {
    s.main == MDone && s.second == SDone
  }

  // ----- safety -----

  // Between taking the mutex and giving it back.
  predicate Inside(s: State, who: Thread) {
    match who
    case MainThread => s.main in {MCount, MCompare, MCheckExit, MRelease, MUnlock}
    case SecondThread => s.second in {STest, SUnlock, SCompare, SRelease, SUnlockLast}
  }

  predicate AboutToUnlock(s: State, who: Thread) {
    match who
    case MainThread => s.main in {MRelease, MUnlock}
    case SecondThread => s.second in {SUnlock, SRelease, SUnlockLast}
  }

  ghost predicate MutexOk(s: State) {
    && !(Inside(s, MainThread) && Inside(s, SecondThread))
    && s.holder == (
      if Inside(s, MainThread) then Held(MainThread)
      else if Inside(s, SecondThread) then Held(if s.iterationSecond == 0 then MainThread else SecondThread)
      else Nobody)
  }

  // What the second thread's place says about the counters.
  ghost predicate SecondOk(n: nat, s: State) {
    match s.second
    case STest => s.iterationSecond <= s.iterationMain
    case SUnlock => s.iterationSecond <= s.iterationMain && s.iterationSecond < n
    case SCount => s.iterationSecond <= s.iterationMain && s.iterationSecond < n
    case SUnlockLast => s.iterationSecond <= s.iterationMain && s.iterationSecond == n
    case SSignal => s.iterationSecond <= s.iterationMain && s.iterationSecond == n
    case SDone => s.iterationSecond <= s.iterationMain && s.iterationSecond == n
    case _ => 0 <= s.iterationSecond - 1 <= s.iterationMain
  }

  ghost predicate MainOk(s: State) {
    match s.main
    case MLock => s.iterationMain < s.iterationSecond || s.iterationMain == 0
    case MCount => s.iterationMain < s.iterationSecond || s.iterationMain == 0
    case MUnlock => s.iterationMain < s.iterationSecond || (s.shouldExit && s.iterationMain > 0)
    case MRepeat => s.iterationMain < s.iterationSecond || (s.shouldExit && s.iterationMain > 0)
    case MDone => s.shouldExit && s.iterationMain > 0
    case _ => s.iterationMain > 0
  }

  function Max(a: nat, b: nat): nat {
    if a < b then b else a
  }

  ghost predicate Inv(n: nat, s: State) {
    && MutexOk(s) && SecondOk(n, s) && MainOk(s)
    && s.iterationMain <= Max(s.iterationSecond, 1)
    && s.iterationSecond <= n
    && (s.shouldExit <==> s.second == SDone)
  }

  lemma MainKeepsInv(n: nat, s: State)
    requires Inv(n, s) && Enabled(s, MainThread)
    ensures Inv(n, MainStep(s))
  {
  }

  lemma SecondKeepsInv(n: nat, s: State)
    requires Inv(n, s) && Enabled(s, SecondThread)
    ensures Inv(n, SecondStep(n, s))
  {
  }

  lemma StepKeepsInv(n: nat, s: State, who: Thread)
    requires Inv(n, s) && Enabled(s, who)
    ensures Inv(n, Step(n, s, who))
  {
    match who
    case MainThread => MainKeepsInv(n, s);
    case SecondThread => SecondKeepsInv(n, s);
  }

  lemma {:induction false} RunKeepsInv(n: nat, s: State, schedule: seq<Thread>)
    requires Inv(n, s) && Possible(n, s, schedule)
    ensures Inv(n, After(n, s, schedule))
    decreases |schedule|
  {
    if schedule != [] {
      StepKeepsInv(n, s, schedule[0]);
      RunKeepsInv(n, Step(n, s, schedule[0]), schedule[1..]);
    }
  }

  // Whatever the schedule, the counters stay within one of each other.
  lemma CountersStayTogether(n: nat, schedule: seq<Thread>)
    requires Possible(n, START, schedule)
    ensures var s := After(n, START, schedule);
      s.iterationSecond - 1 <= s.iterationMain <= Max(s.iterationSecond, 1) && s.iterationSecond <= n
  {
    RunKeepsInv(n, START, schedule);
  }

  // Whatever the schedule, the threads are never both inside, and the mutex is
  // never unlocked while free.  It is unlocked by the thread that locked it,
  // except for the first unlock of the second thread, which has not counted yet.
  lemma UnlocksAreByHolderIff(n: nat, schedule: seq<Thread>, who: Thread)
    requires Possible(n, START, schedule)
    ensures var s := After(n, START, schedule);
      && !(Inside(s, MainThread) && Inside(s, SecondThread))
      && (AboutToUnlock(s, who) ==> s.holder != Nobody)
      && (AboutToUnlock(s, who) ==>
            (s.holder == Held(who) <==> !(who == SecondThread && s.iterationSecond == 0)))
  {
    RunKeepsInv(n, START, schedule);
  }

  // The exception occurs in every run: the first two steps are the second
  // thread's, and the second of them unlocks what the main thread has locked.
  lemma FirstUnlockIsNotByHolder(n: nat, schedule: seq<Thread>)
    requires Possible(n, START, schedule) && |schedule| >= 2
    ensures schedule[0] == schedule[1] == SecondThread && Possible(n, START, [SecondThread])
    ensures var s := After(n, START, [SecondThread]);
      AboutToUnlock(s, SecondThread) && Enabled(s, SecondThread) && s.holder == Held(MainThread)
  {
    assert [SecondThread][1..] == [];
    assert Possible(n, Step(n, START, SecondThread), schedule[1..]);
  }

  // When both threads are done both counters are n, unless n is zero: then the
  // main thread has still counted once.
  lemma BothCountToN(n: nat, schedule: seq<Thread>)
    requires Possible(n, START, schedule) && Finished(After(n, START, schedule))
    ensures var s := After(n, START, schedule);
      && s.iterationSecond == n && s.iterationMain == Max(n, 1)
      && (s.iterationMain == s.iterationSecond <==> n >= 1)
  {
    RunKeepsInv(n, START, schedule);
  }

  // ----- progress -----

  // The thread is in its waiting loop, and has to wait.
  predicate Waiting(s: State, who: Thread) {
    match who
    case MainThread =>
      s.main in {MCompare, MCheckExit, MRelease, MRetake} && s.iterationMain >= s.iterationSecond && !s.shouldExit
    case SecondThread =>
      s.second in {SCompare, SRelease, SRetake} && s.iterationSecond > s.iterationMain
  }

  function MainWork(n: nat, s: State): (w: int) {
    var place :=
      if Waiting(s, MainThread) then 8 else
      match s.main
      case MLock => 1
      case MCount => 0
      case MRelease => if s.shouldExit then 7 else 6
      case MRetake => if s.shouldExit then 6 else 5
      case MCompare => if s.shouldExit then 5 else 4
      case MCheckExit => if s.shouldExit then 4 else 7
      case MUnlock => 3
      case MRepeat => 2
      case MDone => 0;
    10 * (Max(n, 1) - s.iterationMain) + place
  }

  function SecondWork(n: nat, s: State): (w: int) {
    var place :=
      if Waiting(s, SecondThread) then 8 else
      match s.second
      case SLock => 9
      case SRelease => 7
      case SRetake => 6
      case SCompare => 5
      case STest => 4
      case SUnlock => 3
      case SUnlockLast => 3
      case SCount => 2
      case SSignal => 2
      case SDone => 0;
    10 * (n - s.iterationSecond) + place
  }

  // Steps left that are not waiting, at most.
  function Work(n: nat, s: State): (w: nat)
    requires Inv(n, s)
  {
    MainWork(n, s) + SecondWork(n, s)
  }

  lemma MainDoesWork(n: nat, s: State)
    requires Inv(n, s) && Enabled(s, MainThread)
    ensures var t := MainStep(s);
      && SecondWork(n, t) <= SecondWork(n, s)
      && (if Waiting(s, MainThread) then MainWork(n, t) == MainWork(n, s)
          else MainWork(n, t) < MainWork(n, s))
  {
  }

  lemma SecondDoesWork(n: nat, s: State)
    requires Inv(n, s) && Enabled(s, SecondThread)
    ensures var t := SecondStep(n, s);
      && MainWork(n, t) <= MainWork(n, s)
      && (if Waiting(s, SecondThread) then SecondWork(n, t) == SecondWork(n, s)
          else SecondWork(n, t) < SecondWork(n, s))
  {
  }

  lemma StepDoesWork(n: nat, s: State, who: Thread)
    requires Inv(n, s) && Enabled(s, who)
    ensures Inv(n, Step(n, s, who))
    ensures Waiting(s, who) ==> Work(n, Step(n, s, who)) <= Work(n, s)
    ensures !Waiting(s, who) ==> Work(n, Step(n, s, who)) < Work(n, s)
  {
    StepKeepsInv(n, s, who);
    match who
    case MainThread => MainDoesWork(n, s);
    case SecondThread => SecondDoesWork(n, s);
  }

  function StepsNotWaiting(n: nat, s: State, schedule: seq<Thread>): nat
    requires Possible(n, s, schedule)
    decreases |schedule|
  {
    if schedule == [] then 0
    else
      (if Waiting(s, schedule[0]) then 0 else 1)
      + StepsNotWaiting(n, Step(n, s, schedule[0]), schedule[1..])
  }

  lemma {:induction false} WorkIsDone(n: nat, s: State, schedule: seq<Thread>)
    requires Inv(n, s) && Possible(n, s, schedule)
    ensures Inv(n, After(n, s, schedule))
    ensures Work(n, After(n, s, schedule)) + StepsNotWaiting(n, s, schedule) <= Work(n, s)
    decreases |schedule|
  {
    if schedule != [] {
      StepDoesWork(n, s, schedule[0]);
      WorkIsDone(n, Step(n, s, schedule[0]), schedule[1..]);
    }
  }

  // However long a run is, all but 20 * n + 15 of its steps are spent waiting.
  lemma RunsAreWaiting(n: nat, schedule: seq<Thread>)
    requires Possible(n, START, schedule)
    ensures StepsNotWaiting(n, START, schedule) <= 20 * n + 15
  {
    WorkIsDone(n, START, schedule);
  }

  function OtherThan(who: Thread): Thread {
    if who == MainThread then SecondThread else MainThread
  }

  // Until both are done, one of the threads can move; and if a thread waits, the
  // other can move, unless the first is inside.
  lemma NoDeadlock(n: nat, schedule: seq<Thread>, who: Thread)
    requires Possible(n, START, schedule)
    ensures var s := After(n, START, schedule);
      && (Finished(s) <==> !Enabled(s, MainThread) && !Enabled(s, SecondThread))
      && (Waiting(s, who) ==> Enabled(s, OtherThan(who)) || Inside(s, who))
  {
    RunKeepsInv(n, START, schedule);
  }

  // ----- fair schedules -----

  predicate Done(s: State, who: Thread) {
    match who
    case MainThread => s.main == MDone
    case SecondThread => s.second == SDone
  }

  // Of any b + 1 steps in a row, one is made by each thread that is not done.
  ghost predicate Fair(n: nat, s: State, schedule: seq<Thread>, b: nat)
    requires Possible(n, s, schedule)
  {
    forall i, who: Thread ::
      (0 <= i && i + b < |schedule| && Possible(n, s, schedule[..i]) && !Done(After(n, s, schedule[..i]), who))
      ==> who in schedule[i..i + b + 1]
  }

  lemma {:induction false} SplitSchedule(n: nat, s: State, schedule: seq<Thread>, rest: seq<Thread>)
    requires Possible(n, s, schedule + rest)
    ensures Possible(n, s, schedule)
    ensures Possible(n, After(n, s, schedule), rest)
    decreases |schedule|
  {
    if schedule == [] {
      assert schedule + rest == rest;
    } else {
      assert (schedule + rest)[1..] == schedule[1..] + rest;
      SplitSchedule(n, Step(n, s, schedule[0]), schedule[1..], rest);
    }
  }

  lemma {:induction false} ThenPossible(n: nat, s: State, schedule: seq<Thread>, rest: seq<Thread>)
    requires Possible(n, s, schedule) && Possible(n, After(n, s, schedule), rest)
    ensures Possible(n, s, schedule + rest)
    ensures After(n, s, schedule + rest) == After(n, After(n, s, schedule), rest)
    decreases |schedule|
  {
    if schedule == [] {
      assert schedule + rest == rest;
    } else {
      ThenPossible(n, Step(n, s, schedule[0]), schedule[1..], rest);
      assert (schedule + rest)[1..] == schedule[1..] + rest;
    }
  }

  lemma WaitingGoesOn(n: nat, s: State, who: Thread)
    requires Inv(n, s) && Waiting(s, who) && Enabled(s, who)
    ensures Waiting(Step(n, s, who), who)
    ensures !Done(s, OtherThan(who))
  {
  }

  // As long as nobody does any work, only one thread moves.
  lemma {:induction false} WaitersAreAlone(n: nat, s: State, schedule: seq<Thread>)
    requires Inv(n, s) && Possible(n, s, schedule) && StepsNotWaiting(n, s, schedule) == 0
    ensures schedule != [] ==> Waiting(s, schedule[0]) && OtherThan(schedule[0]) !in schedule
    decreases |schedule|
  {
    if schedule != [] {
      var who, t, rest := schedule[0], Step(n, s, schedule[0]), schedule[1..];
      StepKeepsInv(n, s, who);
      WaitingGoesOn(n, s, who);
      WaitersAreAlone(n, t, rest);
      assert schedule == [who] + rest;
    }
  }

  lemma SomebodyWorks(n: nat, s: State, window: seq<Thread>)
    requires Inv(n, s) && Possible(n, s, window) && window != []
    requires forall who: Thread :: !Done(s, who) ==> who in window
    ensures StepsNotWaiting(n, s, window) > 0
  {
    if StepsNotWaiting(n, s, window) == 0 {
      WaitersAreAlone(n, s, window);
      WaitingGoesOn(n, s, window[0]);
    }
  }

  lemma FairWindowDoesWork(n: nat, s: State, schedule: seq<Thread>, b: nat)
    requires Inv(n, s) && Possible(n, s, schedule) && Fair(n, s, schedule, b) && b < |schedule|
    ensures Possible(n, s, schedule[..b + 1]) && StepsNotWaiting(n, s, schedule[..b + 1]) > 0
  {
    var window := schedule[..b + 1];
    assert window + schedule[b + 1..] == schedule;
    SplitSchedule(n, s, window, schedule[b + 1..]);
    assert Possible(n, s, schedule[..0]) && After(n, s, schedule[..0]) == s;
    assert schedule[0..0 + b + 1] == window;
    SomebodyWorks(n, s, window);
  }

  lemma RestIsFair(n: nat, s: State, schedule: seq<Thread>, b: nat, k: nat)
    requires Possible(n, s, schedule) && Fair(n, s, schedule, b) && k <= |schedule|
    ensures Possible(n, s, schedule[..k]) && Possible(n, After(n, s, schedule[..k]), schedule[k..])
    ensures Fair(n, After(n, s, schedule[..k]), schedule[k..], b)
  {
    assert schedule[..k] + schedule[k..] == schedule;
    SplitSchedule(n, s, schedule[..k], schedule[k..]);
    var t, rest := After(n, s, schedule[..k]), schedule[k..];
    forall i, who: Thread | 0 <= i && i + b < |rest| && Possible(n, t, rest[..i]) && !Done(After(n, t, rest[..i]), who)
      ensures who in rest[i..i + b + 1]
    {
      ThenPossible(n, s, schedule[..k], rest[..i]);
      assert schedule[..k] + rest[..i] == schedule[..k + i];
      assert schedule[k + i..k + i + b + 1] == rest[i..i + b + 1];
    }
  }

  lemma {:induction false} MoreRounds(w: nat, v: nat, m: nat)
    requires w < v
    ensures w * m + m <= v * m
    decreases v
  {
    assert (v - 1) * m + m == v * m;
    if w < v - 1 {
      MoreRounds(w, v - 1, m);
    }
  }

  lemma {:induction false} FairRunLength(n: nat, s: State, schedule: seq<Thread>, b: nat)
    requires Inv(n, s) && Possible(n, s, schedule) && Fair(n, s, schedule, b)
    ensures |schedule| <= Work(n, s) * (b + 1) + b
    decreases |schedule|
  {
    if |schedule| > b {
      FairWindowDoesWork(n, s, schedule, b);
      RestIsFair(n, s, schedule, b, b + 1);
      WorkIsDone(n, s, schedule[..b + 1]);
      var t := After(n, s, schedule[..b + 1]);
      FairRunLength(n, t, schedule[b + 1..], b);
      MoreRounds(Work(n, t), Work(n, s), b + 1);
    }
  }

  // A schedule that keeps serving both threads has bounded length, and unless
  // both are done there is a next step: so it ends with both done.
  lemma FairSchedulesEnd(n: nat, schedule: seq<Thread>, b: nat)
    requires Possible(n, START, schedule) && Fair(n, START, schedule, b)
    ensures |schedule| <= (20 * n + 15) * (b + 1) + b
    ensures var s := After(n, START, schedule);
      Finished(s) || Enabled(s, MainThread) || Enabled(s, SecondThread)
  {
    FairRunLength(n, START, schedule, b);
    NoDeadlock(n, schedule, MainThread);
    if Work(n, START) < 20 * n + 15 {
      MoreRounds(Work(n, START), 20 * n + 15, b + 1);
    }
  }

  // A thread to run next: one that need not wait, once it can have the mutex.
  function Choice(s: State): Thread {
    if Waiting(s, MainThread) then if Inside(s, MainThread) then MainThread else SecondThread
    else if Waiting(s, SecondThread) then if Inside(s, SecondThread) then SecondThread else MainThread
    else if Enabled(s, MainThread) then MainThread
    else SecondThread
  }

  // Waiting steps before the mutex is given back.
  function Holding(s: State): nat {
    (match s.main case MCompare => 3 case MCheckExit => 2 case MRelease => 1 case _ => 0)
    + (match s.second case SCompare => 2 case SRelease => 1 case _ => 0)
  }

  lemma ChoiceHelps(n: nat, s: State)
    requires Inv(n, s) && !Finished(s)
    ensures Enabled(s, Choice(s))
    ensures Waiting(s, Choice(s)) ==> Holding(Step(n, s, Choice(s))) < Holding(s)
  {
  }

  lemma {:induction false} CanFinishFrom(n: nat, s: State) returns (schedule: seq<Thread>)
    requires Inv(n, s)
    ensures Possible(n, s, schedule) && Finished(After(n, s, schedule))
    decreases Work(n, s), Holding(s)
  {
    if Finished(s) {
      schedule := [];
    } else {
      var who := Choice(s);
      ChoiceHelps(n, s);
      StepDoesWork(n, s, who);
      var rest := CanFinishFrom(n, Step(n, s, who));
      schedule := [who] + rest;
    }
  }

  // Whatever has happened, the program can still finish.
  lemma CanAlwaysFinish(n: nat, schedule: seq<Thread>) returns (rest: seq<Thread>)
    requires Possible(n, START, schedule)
    ensures Possible(n, START, schedule + rest) && Finished(After(n, START, schedule + rest))
  {
    RunKeepsInv(n, START, schedule);
    rest := CanFinishFrom(n, After(n, START, schedule));
    ThenPossible(n, START, schedule, rest);
  }
}
