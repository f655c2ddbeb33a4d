/** `AutoResetEvent` with a mutex and a condition variable, as a machine over the steps of its threads:
    `Set`, `Reset` and the untimed `WaitOne`, any number of threads, any interleaving. */
module AutoResetEvent {
  import opened Types

  type Thread = nat

  /** Where a thread is. Between `...Lock` and the end of a call it competes for or holds the mutex;
      `Sleeping` it waits on the condition, `Woken` it has to take the mutex again before it rechecks. */
  datatype Pc =
    | Outside
    | SetLock | SetFlag | SetNotify | SetUnlock
    | ResetLock | ResetFlag | ResetUnlock
    | WaitLock | WaitCheck(slept: bool) | WaitTake | WaitUnlock
    | Sleeping | Woken

  predicate Holds(p: Pc) {
    p.SetFlag? || p.SetNotify? || p.SetUnlock? || p.ResetFlag? || p.ResetUnlock?
    || p.WaitCheck? || p.WaitTake? || p.WaitUnlock?
  }

  /** `m_bSet`, the owner of the mutex, the threads, and counts of what happened: flags set, waits
      completed, flags reset before a wait took them, and sets of a flag already set. */
  datatype State = State(flag: bool, owner: Option<Thread>, pc: map<Thread, Pc>,
                         sets: nat, completed: nat, discarded: nat, absorbed: nat)

  predicate Init(s: State) {
    && !s.flag && s.owner == Nothing && (forall t | t in s.pc :: s.pc[t] == Outside)
    && s.sets == s.completed == s.discarded == s.absorbed == 0
  }

  // ----- steps of one thread

  function Goto(s: State, t: Thread, p: Pc): State {
    s.(pc := s.pc[t := p])
  }

  predicate Takes(s: State, r: State, t: Thread, p: Pc) {
    s.owner == Nothing && r == Goto(s, t, p).(owner := Just(t))
  }

  predicate Leaves(s: State, r: State, t: Thread, p: Pc) {
    r == Goto(s, t, p).(owner := Nothing)
  }

  /** `notify_one`: some sleeping thread wakes up if there is one. */
  predicate Notifies(s: State, r: State, t: Thread) {
    if exists u :: u in s.pc && s.pc[u].Sleeping? then
      exists u :: u in s.pc && s.pc[u].Sleeping? && r == Goto(Goto(s, u, Woken), t, SetUnlock)
    else r == Goto(s, t, SetUnlock)
  }

  predicate Step(s: State, r: State, t: Thread) {
    && t in s.pc
    && match s.pc[t]
       case Outside => r == Goto(s, t, SetLock) || r == Goto(s, t, ResetLock) || r == Goto(s, t, WaitLock)
       case SetLock => Takes(s, r, t, SetFlag)
       case SetFlag =>
         r == Goto(s, t, SetNotify).(flag := true, sets := s.sets + 1, absorbed := s.absorbed + if s.flag then 1 else 0)
       case SetNotify => Notifies(s, r, t)
       case SetUnlock => Leaves(s, r, t, Outside)
       case ResetLock => Takes(s, r, t, ResetFlag)
       case ResetFlag =>
         r == Goto(s, t, ResetUnlock).(flag := false, discarded := s.discarded + if s.flag then 1 else 0)
       case ResetUnlock => Leaves(s, r, t, Outside)
       case WaitLock => Takes(s, r, t, WaitCheck(false))
       case WaitCheck(_) => if s.flag then r == Goto(s, t, WaitTake) else Leaves(s, r, t, Sleeping)
       case WaitTake => r == Goto(s, t, WaitUnlock).(flag := false, completed := s.completed + 1)
       case WaitUnlock => Leaves(s, r, t, Outside)
       // a wake-up nobody asked for
       case Sleeping => r == Goto(s, t, Woken)
       case Woken => Takes(s, r, t, WaitCheck(true))
  }

  ghost predicate Next(s: State, r: State) {
    exists t :: Step(s, r, t)
  }

  ghost predicate IsRun(run: seq<State>) {
    && run != [] && Init(run[0])
    && forall i | 0 <= i < |run| - 1 :: Next(run[i], run[i + 1])
  }

  // ----- invariants

  /** The owner is the one thread inside the monitor. */
  predicate MutualExclusion(s: State) {
    && (s.owner.Just? ==> s.owner.value in s.pc && Holds(s.pc[s.owner.value]))
    && forall t | t in s.pc && Holds(s.pc[t]) :: s.owner == Just(t)
  }

  /** Every set is accounted for: a wait took it, a reset discarded it, it found the flag set already, or
      it still is the flag. */
  predicate SetsAccounted(s: State) {
    && s.sets == s.completed + s.discarded + s.absorbed + (if s.flag then 1 else 0)
    && forall t | t in s.pc && s.pc[t].WaitTake? :: s.flag
  }

  /** A thread that will find the flag, or will wake one that does. */
  predicate Alert(p: Pc) {
    p.Woken? || p == WaitCheck(true) || p.WaitTake? || p.SetNotify?
  }

  ghost predicate SomeAlert(s: State) {
    exists t :: t in s.pc && Alert(s.pc[t])
  }

  ghost predicate SomeSleeps(s: State) {
    exists t :: t in s.pc && s.pc[t].Sleeping?
  }

  ghost predicate NothingLost(s: State) {
    s.flag && SomeSleeps(s) ==> SomeAlert(s)
  }

  ghost predicate Inv(s: State) {
    MutualExclusion(s) && SetsAccounted(s) && NothingLost(s)
  }

  lemma StepKeepsExclusion(s: State, r: State, t: Thread)
    requires MutualExclusion(s) && Step(s, r, t)
    ensures MutualExclusion(r)
  {
  }

  lemma StepKeepsAccount(s: State, r: State, t: Thread)
    requires MutualExclusion(s) && SetsAccounted(s) && Step(s, r, t)
    ensures SetsAccounted(r)
  {
    if u :| u in r.pc && r.pc[u].WaitTake? && u != t {
      assert s.pc[u].WaitTake?;
    }
  }

  lemma StepLosesNothing(s: State, r: State, t: Thread)
    requires MutualExclusion(s) && NothingLost(s) && Step(s, r, t)
    ensures NothingLost(r)
  {
    if r.flag && SomeSleeps(r) && !Alert(r.pc[t]) {
      var u :| u in r.pc && r.pc[u].Sleeping?;
      assert s.pc[u].Sleeping?;
      var a :| a in s.pc && Alert(s.pc[a]);
      StepKeepsAlert(s, r, t, a);
    }
  }

  /** An alert thread stays alert, or its step clears the flag, or it hands on by waking another. */
  lemma StepKeepsAlert(s: State, r: State, t: Thread, a: Thread)
    requires MutualExclusion(s) && Step(s, r, t) && a in s.pc && Alert(s.pc[a])
    requires s.flag && r.flag && SomeSleeps(s)
    ensures SomeAlert(r)
  {
    if a != t {
      assert a in r.pc && Alert(r.pc[a]);
    } else {
      match s.pc[t]
      case SetNotify =>
        var u :| u in s.pc && s.pc[u].Sleeping? && r == Goto(Goto(s, u, Woken), t, SetUnlock);
        assert u in r.pc && Alert(r.pc[u]);
      case Woken => assert Alert(r.pc[t]);
      case WaitCheck(_) => assert Alert(r.pc[t]);
      case _ =>
    }
  }

  lemma InitHolds(s: State)
    requires Init(s)
    ensures Inv(s)
  {
  }

  lemma {:induction false} RunKeepsInv(run: seq<State>, i: nat)
    requires IsRun(run) && i < |run|
    ensures Inv(run[i])
  {
    if i == 0 {
      InitHolds(run[0]);
    } else {
      RunKeepsInv(run, i - 1);
      assert Next(run[i - 1], run[i - 1 + 1]);
      var t :| Step(run[i - 1], run[i], t);
      StepKeepsExclusion(run[i - 1], run[i], t);
      StepKeepsAccount(run[i - 1], run[i], t);
      StepLosesNothing(run[i - 1], run[i], t);
    }
  }

  // ----- what holds in every interleaving

  /** In every state of every run no more waits have completed than flags were set, at most one thread is
      inside the monitor, and no wake-up is lost: while the mutex is free, the flag is set and some thread
      sleeps, another has been woken and has not yet rechecked. */
  lemma {:induction false} EveryRun(run: seq<State>, i: nat)
    requires IsRun(run) && i < |run|
    ensures run[i].completed + (if run[i].flag then 1 else 0) <= run[i].sets
    ensures forall t, u | t in run[i].pc && u in run[i].pc && Holds(run[i].pc[t]) && Holds(run[i].pc[u]) :: t == u
    ensures run[i].owner == Nothing && run[i].flag && SomeSleeps(run[i]) ==>
              exists t :: t in run[i].pc && run[i].pc[t].Woken?
  {
    RunKeepsInv(run, i);
    var s := run[i];
    if s.owner == Nothing && s.flag && SomeSleeps(s) {
      var t :| t in s.pc && Alert(s.pc[t]);
      assert !Holds(s.pc[t]);
      assert s.pc[t].Woken?;
    }
  }

  /** From such a state the woken thread can complete its wait in three steps of its own. */
  lemma {:induction false} WokenThreadCompletes(run: seq<State>, i: nat)
      returns (t: Thread, a: State, b: State, c: State)
    requires IsRun(run) && i < |run|
    requires run[i].owner == Nothing && run[i].flag && SomeSleeps(run[i])
    ensures t in run[i].pc && run[i].pc[t].Woken?
    ensures Step(run[i], a, t) && Step(a, b, t) && Step(b, c, t)
    ensures c.completed == run[i].completed + 1 && !c.flag
  {
    EveryRun(run, i);
    var s := run[i];
    t :| t in s.pc && s.pc[t].Woken?;
    a := Goto(s, t, WaitCheck(true)).(owner := Just(t));
    b := Goto(a, t, WaitTake);
    c := Goto(b, t, WaitUnlock).(flag := false, completed := b.completed + 1);
  }

  /** Each wait that completes takes a set of its own: between two completed waits of a run there is at
      least one set. */
  lemma {:induction false} CompletedWaitsTakeSets(run: seq<State>, i: nat, j: nat)
    requires IsRun(run) && i <= j < |run|
    ensures run[i].sets <= run[j].sets && run[i].completed <= run[j].completed
    ensures run[j].completed - run[i].completed <= run[j].sets - run[i].sets + (if run[i].flag then 1 else 0)
  {
    CountsGrow(run, i, j);
    RunKeepsInv(run, i);
    RunKeepsInv(run, j);
  }

  lemma CountsGrowInStep(s: State, r: State)
    requires Next(s, r)
    ensures s.sets <= r.sets && s.completed <= r.completed && s.discarded <= r.discarded && s.absorbed <= r.absorbed
  {
    var t :| Step(s, r, t);
  }

  lemma {:induction false} CountsGrow(run: seq<State>, i: nat, j: nat)
    requires IsRun(run) && i <= j < |run|
    ensures run[i].sets <= run[j].sets && run[i].completed <= run[j].completed
    ensures run[i].discarded <= run[j].discarded && run[i].absorbed <= run[j].absorbed
    decreases j - i
  {
    hide Next;
    if i < j {
      CountsGrow(run, i, j - 1);
      assert Next(run[j - 1], run[j - 1 + 1]);
      CountsGrowInStep(run[j - 1], run[j]);
    }
  }

  // ----- the flag, told from what the threads have done

  /** In step `i` thread `t` sets the flag, that is, it gets past the assignment in `Set`. */
  predicate SetsAt(run: seq<State>, i: nat, t: Thread)
    requires i + 1 < |run|
  {
    t in run[i].pc && t in run[i + 1].pc && run[i].pc[t].SetFlag? && run[i + 1].pc[t].SetNotify?
  }

  /** In step `i` thread `t` gets past the assignment in `Reset`. */
  predicate ResetsAt(run: seq<State>, i: nat, t: Thread)
    requires i + 1 < |run|
  {
    t in run[i].pc && t in run[i + 1].pc && run[i].pc[t].ResetFlag? && run[i + 1].pc[t].ResetUnlock?
  }

  /** In step `i` thread `t` gets past the assignment that ends its wait. */
  predicate WaitEndsAt(run: seq<State>, i: nat, t: Thread)
    requires i + 1 < |run|
  {
    t in run[i].pc && t in run[i + 1].pc && run[i].pc[t].WaitTake? && run[i + 1].pc[t].WaitUnlock?
  }

  ghost predicate SomeSet(run: seq<State>, i: nat)
    requires i + 1 < |run|
  {
    exists t :: SetsAt(run, i, t)
  }

  ghost predicate SomeClear(run: seq<State>, i: nat)
    requires i + 1 < |run|
  {
    exists t :: ResetsAt(run, i, t) || WaitEndsAt(run, i, t)
  }

  /** Step `i` sets the flag, and no reset and no end of a wait follows it before state `j`. */
  ghost predicate LastSet(run: seq<State>, i: nat, j: nat)
    requires j < |run|
  {
    i < j && SomeSet(run, i) && forall k | i < k < j :: !SomeClear(run, k)
  }

  /** The event is signalled exactly when some `Set` has been followed neither by a `Reset` nor by the
      end of a wait. */
  lemma {:induction false} SignalledExactly(run: seq<State>, j: nat)
    requires IsRun(run) && j < |run|
    ensures run[j].flag <==> exists i: nat :: LastSet(run, i, j)
  {
    hide Next, SomeSet, SomeClear;
    if j > 0 {
      SignalledExactly(run, j - 1);
      assert Next(run[j - 1], run[j - 1 + 1]);
      FlagInStep(run, j - 1);
      if run[j].flag {
        if SomeSet(run, j - 1) {
          assert LastSet(run, j - 1, j);
        } else {
          var i: nat :| LastSet(run, i, j - 1);
          assert LastSet(run, i, j);
        }
      } else if i: nat :| LastSet(run, i, j) {
        assert i < j - 1;
        assert LastSet(run, i, j - 1);
      }
    }
  }

  lemma FlagInStep(run: seq<State>, i: nat)
    requires i + 1 < |run| && Next(run[i], run[i + 1])
    ensures SomeSet(run, i) ==> run[i + 1].flag
    ensures SomeClear(run, i) ==> !run[i + 1].flag
    ensures !SomeSet(run, i) && !SomeClear(run, i) ==> run[i + 1].flag == run[i].flag
  {
    var s, r := run[i], run[i + 1];
    var t :| Step(s, r, t);
    assert s.pc[t].SetFlag? ==> SetsAt(run, i, t);
    assert s.pc[t].ResetFlag? ==> ResetsAt(run, i, t);
    assert s.pc[t].WaitTake? ==> WaitEndsAt(run, i, t);
  }

  predicate Sees(s: State, t: Thread)
    requires t in s.pc
  {
    && (s.pc[t].SetNotify? || s.pc[t].SetUnlock? ==> s.flag)
    && (s.pc[t].ResetUnlock? || s.pc[t].WaitUnlock? ==> !s.flag)
  }

  lemma SameThreads(s: State, r: State)
    requires Next(s, r)
    ensures r.pc.Keys == s.pc.Keys
  {
    var u :| Step(s, r, u);
  }

  lemma SeenInStep(s: State, r: State, t: Thread)
    requires Next(s, r) && Inv(s) && t in s.pc && t in r.pc && Sees(s, t)
    ensures Sees(r, t)
  {
    hide NothingLost, SetsAccounted;
    var u :| Step(s, r, u);
    if u != t {
      OthersStay(s, r, u, t);
    }
  }

  /** A step of one thread leaves another thread inside the monitor where it is, and the flag alone unless it
      is inside the monitor itself. */
  lemma OthersStay(s: State, r: State, u: Thread, t: Thread)
    requires MutualExclusion(s) && Step(s, r, u) && t in s.pc && t in r.pc && u != t
    ensures Holds(r.pc[t]) ==> r.pc[t] == s.pc[t] && r.flag == s.flag
  {
  }

  /** A thread inside the monitor that has just set or cleared the flag finds it so until it leaves. */
  lemma {:induction false} SeenInside(run: seq<State>, i: nat, t: Thread)
    requires IsRun(run) && i < |run| && t in run[i].pc
    ensures Sees(run[i], t)
  {
    hide Next, Inv;
    if i > 0 {
      assert Next(run[i - 1], run[i - 1 + 1]);
      RunKeepsInv(run, i - 1);
      SameThreads(run[i - 1], run[i]);
      SeenInside(run, i - 1, t);
      SeenInStep(run[i - 1], run[i], t);
    }
  }

  /** A wait ends only on a set of its own: one that no other wait and no reset has come after. */
  lemma {:induction false} WaitEndsOnItsSet(run: seq<State>, j: nat, t: Thread)
    requires IsRun(run) && j + 1 < |run| && WaitEndsAt(run, j, t)
    ensures exists i: nat :: LastSet(run, i, j)
  {
    RunKeepsInv(run, j);
    SignalledExactly(run, j);
  }

  /** After a `Reset` waits need sets made since: none is left over from before. */
  lemma {:induction false} ResetDiscards(run: seq<State>, i: nat, t: Thread, j: nat)
    requires IsRun(run) && i < j < |run| && ResetsAt(run, i, t)
    ensures run[i + 1].completed <= run[j].completed
    ensures run[j].completed - run[i + 1].completed <= run[j].sets - run[i + 1].sets
  {
    assert Next(run[i], run[i + 1]);
    FlagInStep(run, i);
    CompletedWaitsTakeSets(run, i + 1, j);
  }

  /** The counts are those of the steps: one more wait has completed exactly when a wait has ended, one
      more set was made exactly when a thread has set the flag. */
  lemma CountsAreOfSteps(run: seq<State>, i: nat)
    requires IsRun(run) && i + 1 < |run|
    ensures run[i + 1].completed == run[i].completed + if exists t :: WaitEndsAt(run, i, t) then 1 else 0
    ensures run[i + 1].sets == run[i].sets + if SomeSet(run, i) then 1 else 0
  {
    var s, r := run[i], run[i + 1];
    assert Next(s, r);
    var t :| Step(s, r, t);
    assert s.pc[t].SetFlag? ==> SetsAt(run, i, t);
    assert s.pc[t].WaitTake? ==> WaitEndsAt(run, i, t);
  }

  /** What a waiting thread does when it looks at the flag: it goes on if some `Set` has been followed
      neither by a `Reset` nor by the end of a wait, and goes to sleep otherwise. */
  lemma {:induction false} WaitDecides(run: seq<State>, j: nat, t: Thread)
    requires IsRun(run) && j + 1 < |run| && Step(run[j], run[j + 1], t) && run[j].pc[t].WaitCheck?
    ensures t in run[j + 1].pc
    ensures run[j + 1].pc[t] == if exists i: nat :: LastSet(run, i, j) then WaitTake else Sleeping
  {
    hide LastSet, IsRun;
    SignalledExactly(run, j);
  }
}
