// The recursive mutex of src/mutex.c and the entry counter that src/inter.c
// keeps under it, as interleaved steps of any number of threads.
module Mutex {
  import opened Memory

  // Where a thread is: outside the library, or about to take one step of
  // savesignals (lock, then recur++), of restoresignals (--recur, then unlock)
  // or of an unlock that no lock belongs to.
  datatype Pc =
    | Idle
    | LockGuard | Test | Nest | Release | LockReal | Reguard | TakeOver | SetCount | LockDone
    | ReadUp | WriteUp(r: int)
    | ReadDown | WriteDown(r: int)
    | UnGuard(stray: bool) | UnTest(stray: bool) | Drop | FreeReal | ClearOwner | UnDone

  // held is the number of entries that the thread is inside of.
  datatype Thread = Thread(pc: Pc, held: nat)

  datatype State = State(guard: Option<nat>, actual: Option<nat>, owner: int, count: int, recur: int,
                         threads: map<nat, Thread>)

  // What an idle thread does next; a thread in the middle of a call goes on.
  datatype Op = Enter | Leave | Stray | Go

  function At(s: State, t: nat, pc: Pc): State
    requires t in s.threads
  {
    s.(threads := s.threads[t := s.threads[t].(pc := pc)])
  }

  // A thread waits where it locks a mutex that is taken.  It leaves only what
  // it has entered; an unlock by a thread that is not inside is stray.
  predicate Enabled(s: State, t: nat, op: Op) {
    t in s.threads &&
    var th := s.threads[t];
    match op
    case Enter => th.pc.Idle?
    case Leave => th.pc.Idle? && th.held > 0
    case Stray => th.pc.Idle? && th.held == 0
    case Go =>
      && !th.pc.Idle?
      && (th.pc.LockGuard? || th.pc.Reguard? || th.pc.UnGuard? ==> s.guard.None?)
      && (th.pc.LockReal? ==> s.actual.None?)
  }

  // src/mutex.c:239-299 and src/inter.c:229-263
  function Next(s: State, t: nat, op: Op): State
    requires Enabled(s, t, op)
  {
    var th := s.threads[t];
    match op
    case Enter => At(s, t, LockGuard)
    case Leave => At(s, t, ReadDown)
    case Stray => At(s, t, UnGuard(true))
    case Go =>
      match th.pc
      case Idle => s
      case LockGuard => At(s.(guard := Some(t)), t, Test)
      case Test => At(s, t, if s.owner == t && s.count > 0 then Nest else Release)
      case Nest => At(s.(count := s.count + 1), t, LockDone)
      case Release => At(s.(guard := None), t, LockReal)
      case LockReal => At(s.(actual := Some(t)), t, Reguard)
      case Reguard => At(s.(guard := Some(t)), t, TakeOver)
      case TakeOver => At(s.(owner := t), t, SetCount)
      case SetCount => At(s.(count := 1), t, LockDone)
      case LockDone => s.(guard := None, threads := s.threads[t := Thread(ReadUp, th.held + 1)])
      case ReadUp => At(s, t, WriteUp(s.recur))
      case WriteUp(r) => At(s.(recur := r + 1), t, Idle)
      case ReadDown => At(s, t, WriteDown(s.recur))
      case WriteDown(r) =>
        s.(recur := r - 1, threads := s.threads[t := Thread(UnGuard(false), if th.held > 0 then th.held - 1 else 0)])
      case UnGuard(stray) => At(s.(guard := Some(t)), t, UnTest(stray))
      case UnTest(_) => At(s, t, if s.owner == t && s.count > 0 then Drop else UnDone)
      case Drop => At(s.(count := s.count - 1), t, if s.count - 1 == 0 then FreeReal else UnDone)
      case FreeReal => At(s.(actual := None), t, ClearOwner)
      case ClearOwner => At(s.(owner := 0), t, UnDone)
      case UnDone => At(s.(guard := None), t, Idle)
  }

  predicate Start(s: State) {
    && s.guard.None? && s.actual.None? && s.owner == 0 && s.count == 0 && s.recur == 0
    && forall t :: t in s.threads ==> s.threads[t] == Thread(Idle, 0)
  }

  ghost predicate Run(steps: seq<(nat, Op)>, states: seq<State>) {
    && |states| == |steps| + 1 && Start(states[0])
    && forall k :: 0 <= k < |steps| ==>
         && Enabled(states[k], steps[k].0, steps[k].1)
         && states[k + 1] == Next(states[k], steps[k].0, steps[k].1)
  }

  // ---- The invariant ----

  predicate GuardPc(pc: Pc) {
    match pc
    case Test | Nest | Release | TakeOver | SetCount | LockDone => true
    case UnTest(_) | Drop | FreeReal | ClearOwner | UnDone => true
    case _ => false
  }

  // The entries that count stands for: those that the thread is inside of, the
  // one it has just locked, and the one it is about to unlock.
  function Claim(th: Thread): (n: nat)
    ensures n >= th.held
  {
    match th.pc
    case LockDone | UnGuard(false) | UnTest(false) | Drop => th.held + 1
    case _ => th.held
  }

  predicate RealPc(pc: Pc) {
    pc.Reguard? || pc.TakeOver? || pc.SetCount? || pc.FreeReal?
  }

  predicate LocalOk(th: Thread, recur: int) {
    match th.pc
    case Release | LockReal | Reguard | TakeOver | SetCount | FreeReal | ClearOwner => th.held == 0
    case UnGuard(stray) => stray ==> th.held == 0
    case UnTest(stray) => stray ==> th.held == 0
    case Nest | ReadUp | ReadDown => th.held > 0
    case WriteUp(r) => th.held > 0 && r == recur
    case WriteDown(r) => th.held > 0 && r == recur
    case _ => true
  }

  // What recur is while thread th is inside.
  function Entries(th: Thread): int {
    if th.pc.ReadUp? || th.pc.WriteUp? then th.held - 1 else th.held
  }

  predicate ThreadOk(s: State, t: nat, th: Thread) {
    && (s.guard == Some(t) <==> GuardPc(th.pc))
    && (s.actual == Some(t) <==> Claim(th) > 0 || RealPc(th.pc))
    && LocalOk(th, s.recur)
    && (Claim(th) > 0 ==> s.owner == t && s.count == Claim(th) && s.recur == Entries(th))
    && (th.pc.SetCount? ==> s.owner == t)
    && (RealPc(th.pc) || th.pc.ClearOwner? ==> s.count == 0)
  }

  predicate SharedOk(s: State) {
    && s.count >= 0
    && (s.count > 0 ==> s.actual.Some? && s.actual.value in s.threads && Claim(s.threads[s.actual.value]) > 0)
    && (s.count == 0 ==> s.recur == 0)
    && (s.guard.Some? ==> s.guard.value in s.threads)
    && (s.actual.Some? ==> s.actual.value in s.threads)
  }

  ghost predicate Inv(s: State) {
    SharedOk(s) && forall t :: t in s.threads ==> ThreadOk(s, t, s.threads[t])
  }

  predicate Locking(pc: Pc) {
    match pc
    case LockGuard | Test | Nest | Release | LockReal | Reguard | TakeOver | SetCount | LockDone => true
    case _ => false
  }

  predicate Counting(pc: Pc) {
    pc.ReadUp? || pc.WriteUp? || pc.ReadDown? || pc.WriteDown?
  }

  lemma CallOk(s: State, t: nat, op: Op)
    requires t in s.threads && ThreadOk(s, t, s.threads[t]) && Enabled(s, t, op) && !op.Go?
    ensures ThreadOk(Next(s, t, op), t, Next(s, t, op).threads[t])
  {
  }

  predicate Acquiring(pc: Pc) {
    pc.Release? || pc.LockReal? || pc.Reguard? || pc.TakeOver? || pc.SetCount?
  }

  lemma LockOk(s: State, t: nat)
    requires t in s.threads && ThreadOk(s, t, s.threads[t]) && Enabled(s, t, Go) && Locking(s.threads[t].pc)
    requires !Acquiring(s.threads[t].pc) && s.count >= 0
    requires s.count > 0 && s.owner == t ==> Claim(s.threads[t]) > 0
    ensures ThreadOk(Next(s, t, Go), t, Next(s, t, Go).threads[t])
  {
  }

  lemma AcquireOk(s: State, t: nat)
    requires t in s.threads && ThreadOk(s, t, s.threads[t]) && Enabled(s, t, Go) && Acquiring(s.threads[t].pc)
    requires s.count >= 0 && (s.count == 0 ==> s.recur == 0) && (s.count > 0 ==> s.actual.Some?)
    ensures ThreadOk(Next(s, t, Go), t, Next(s, t, Go).threads[t])
  {
  }

  lemma CountOk(s: State, t: nat)
    requires t in s.threads && ThreadOk(s, t, s.threads[t]) && Enabled(s, t, Go) && !Locking(s.threads[t].pc)
    requires Counting(s.threads[t].pc)
    ensures ThreadOk(Next(s, t, Go), t, Next(s, t, Go).threads[t])
  {
  }

  lemma UnlockOk(s: State, t: nat)
    requires t in s.threads && ThreadOk(s, t, s.threads[t]) && Enabled(s, t, Go) && !Locking(s.threads[t].pc)
    requires !Counting(s.threads[t].pc)
    requires s.count >= 0
    requires s.count > 0 && s.owner == t ==> Claim(s.threads[t]) > 0
    ensures ThreadOk(Next(s, t, Go), t, Next(s, t, Go).threads[t])
  {
  }

  lemma SelfOk(s: State, t: nat, op: Op)
    requires Inv(s) && Enabled(s, t, op)
    ensures ThreadOk(Next(s, t, op), t, Next(s, t, op).threads[t])
  {
    assert ThreadOk(s, t, s.threads[t]);
    if s.actual.Some? {
      assert ThreadOk(s, s.actual.value, s.threads[s.actual.value]);
    }
    if !op.Go? {
      CallOk(s, t, op);
    } else if Acquiring(s.threads[t].pc) {
      AcquireOk(s, t);
    } else if Locking(s.threads[t].pc) {
      LockOk(s, t);
    } else if Counting(s.threads[t].pc) {
      CountOk(s, t);
    } else {
      UnlockOk(s, t);
    }
  }

  // The steps of one thread do not disturb another: what they write is
  // guarded, or belongs to the thread that is inside.
  lemma OtherOk(s: State, t: nat, op: Op, u: nat)
    requires Inv(s) && Enabled(s, t, op) && u in s.threads && u != t
    ensures ThreadOk(Next(s, t, op), u, s.threads[u])
  {
    assert ThreadOk(s, t, s.threads[t]);
    assert ThreadOk(s, u, s.threads[u]);
  }

  lemma StepShared(s: State, t: nat, op: Op)
    requires Inv(s) && Enabled(s, t, op)
    ensures SharedOk(Next(s, t, op))
  {
    assert ThreadOk(s, t, s.threads[t]);
    if s.actual.Some? {
      assert ThreadOk(s, s.actual.value, s.threads[s.actual.value]);
    }
  }

  lemma OthersStay(s: State, t: nat, op: Op)
    requires Enabled(s, t, op)
    ensures Next(s, t, op).threads.Keys == s.threads.Keys
    ensures forall u :: u in s.threads && u != t ==> Next(s, t, op).threads[u] == s.threads[u]
  {
  }

  lemma StepInv(s: State, t: nat, op: Op)
    requires Inv(s) && Enabled(s, t, op)
    ensures Inv(Next(s, t, op))
  {
    StepShared(s, t, op);
    OthersStay(s, t, op);
    forall u | u in s.threads
      ensures ThreadOk(Next(s, t, op), u, Next(s, t, op).threads[u])
    {
      if u == t {
        SelfOk(s, t, op);
      } else {
        OtherOk(s, t, op, u);
      }
    }
  }

  lemma {:induction false} RunInv(steps: seq<(nat, Op)>, states: seq<State>, k: nat)
    requires Run(steps, states) && k <= |steps|
    ensures Inv(states[k])
  {
    if k > 0 {
      RunInv(steps, states, k - 1);
      StepInv(states[k - 1], steps[k - 1].0, steps[k - 1].1);
    }
  }

  // ---- What holds in every state of every run ----

  // Thread t has returned from more locks than it has begun to undo.
  predicate InsideLibrary(s: State, t: nat) {
    t in s.threads && s.threads[t].held > 0
  }

  // At most one thread is inside, and it owns the mutex.
  lemma MutualExclusion(steps: seq<(nat, Op)>, states: seq<State>, k: nat, t: nat, u: nat)
    requires Run(steps, states) && k <= |steps|
    requires InsideLibrary(states[k], t) && InsideLibrary(states[k], u)
    ensures t == u && states[k].actual == Some(t) && states[k].owner == t
  {
    RunInv(steps, states, k);
    assert ThreadOk(states[k], t, states[k].threads[t]) && ThreadOk(states[k], u, states[k].threads[u]);
  }

  // While a thread runs inside the library, the recursion count and the entry
  // counter are both its nesting depth: recur is 1 in the outermost entry
  // only.
  lemma CountIsDepth(steps: seq<(nat, Op)>, states: seq<State>, k: nat, t: nat)
    requires Run(steps, states) && k <= |steps|
    requires InsideLibrary(states[k], t) && states[k].threads[t].pc.Idle?
    ensures states[k].count == states[k].threads[t].held == states[k].recur
  {
    RunInv(steps, states, k);
    assert ThreadOk(states[k], t, states[k].threads[t]);
  }

  // With no thread inside, or on its way in or out, everything is as at the
  // start but for the identifier of the last owner.
  lemma RestIsClean(steps: seq<(nat, Op)>, states: seq<State>, k: nat)
    requires Run(steps, states) && k <= |steps|
    requires forall t :: t in states[k].threads ==> states[k].threads[t] == Thread(Idle, 0)
    ensures states[k].guard.None? && states[k].actual.None? && states[k].count == 0 && states[k].recur == 0
  {
    RunInv(steps, states, k);
    var s := states[k];
    assert s.actual.Some? ==> ThreadOk(s, s.actual.value, s.threads[s.actual.value]);
    assert s.guard.Some? ==> ThreadOk(s, s.guard.value, s.threads[s.guard.value]);
  }

  // An unlock by a thread that is not inside fails its test, so that none of
  // its steps writes anything but the guard.
  lemma StrayUnlock(steps: seq<(nat, Op)>, states: seq<State>, k: nat, t: nat)
    requires Run(steps, states) && k <= |steps| && Enabled(states[k], t, Go)
    requires states[k].threads[t].pc == UnGuard(true) || states[k].threads[t].pc == UnTest(true)
             || states[k].threads[t].pc == UnDone
    ensures var s, now := states[k], Next(states[k], t, Go);
      && now.(guard := s.guard, threads := s.threads) == s
      && (s.threads[t].pc == UnTest(true) ==> now.threads[t].pc == UnDone)
      && now.threads[t].held == s.threads[t].held
  {
    RunInv(steps, states, k);
    var s := states[k];
    assert ThreadOk(s, t, s.threads[t]);
    if s.count > 0 {
      assert ThreadOk(s, s.actual.value, s.threads[s.actual.value]);
    }
  }

  // An unlock that belongs to a lock passes its test.
  lemma OwnUnlock(steps: seq<(nat, Op)>, states: seq<State>, k: nat, t: nat)
    requires Run(steps, states) && k <= |steps| && t in states[k].threads
    requires states[k].threads[t].pc == UnTest(false)
    ensures Enabled(states[k], t, Go) && Next(states[k], t, Go).threads[t].pc == Drop
    ensures states[k].count == states[k].threads[t].held + 1
  {
    RunInv(steps, states, k);
    assert ThreadOk(states[k], t, states[k].threads[t]);
  }

  // The late store of 0 to owner happens under the guard, when no thread that
  // may already have the freed mutex has recorded itself yet.
  lemma LateStore(steps: seq<(nat, Op)>, states: seq<State>, k: nat, t: nat, u: nat)
    requires Run(steps, states) && k <= |steps| && t in states[k].threads && u in states[k].threads
    requires states[k].threads[t].pc == ClearOwner
    ensures Enabled(states[k], t, Go)
    ensures states[k].count == 0 && Claim(states[k].threads[u]) == 0
    ensures !states[k].threads[u].pc.TakeOver? && !states[k].threads[u].pc.SetCount?
  {
    RunInv(steps, states, k);
    assert ThreadOk(states[k], t, states[k].threads[t]);
    assert ThreadOk(states[k], u, states[k].threads[u]);
  }

  // Whoever holds the guard can take a step, so it never waits for the mutex.
  lemma GuardHolderMoves(steps: seq<(nat, Op)>, states: seq<State>, k: nat, t: nat)
    requires Run(steps, states) && k <= |steps| && states[k].guard == Some(t)
    ensures Enabled(states[k], t, Go) && !states[k].threads[t].pc.LockReal?
  {
    RunInv(steps, states, k);
    assert ThreadOk(states[k], t, states[k].threads[t]);
  }

  // No deadlock: while a call is under way, some call can go on, or the thread
  // that is inside is running there.
  lemma NoDeadlock(steps: seq<(nat, Op)>, states: seq<State>, k: nat, t: nat) returns (u: nat)
    requires Run(steps, states) && k <= |steps|
    requires t in states[k].threads && !states[k].threads[t].pc.Idle?
    ensures Enabled(states[k], u, Go) || (InsideLibrary(states[k], u) && states[k].threads[u].pc.Idle?)
  {
    RunInv(steps, states, k);
    var s := states[k];
    u := t;
    assert ThreadOk(s, t, s.threads[t]);
    if s.threads[t].pc.LockReal? && s.actual.Some? {
      u := s.actual.value;
      assert ThreadOk(s, u, s.threads[u]);
    }
    if s.guard.Some? {
      u := s.guard.value;
      GuardHolderMoves(steps, states, k, u);
    }
  }
}
