/** `Ps3RawMutex`: any number of threads interleaving atomic swaps and stores on
    one flag. `lock` retries its swap, so each retry is a step of its own. */
module Spinlock {
  type Thread = nat

  /** Where a thread is: outside, retrying the swap of `lock`, or past a
      successful `lock` or `try_lock`. */
  datatype Place = Outside | Spinning | Holding

  /** The flag, where every thread that ever called is, and how many
      acquisitions and releases there have been. */
  datatype State = State(flag: bool, threads: map<Thread, Place>, acquired: nat, released: nat)

  datatype Step =
    | BeginLock(t: Thread)    // calls `lock`
    | Spin(t: Thread)         // one swap of the loop in `lock`
    | TryLock(t: Thread)      // `try_lock`
    | Unlock(t: Thread)       // `unlock`

  const INIT := State(false, map[], 0, 0)

  function At(s: State, t: Thread): Place {
    if t in s.threads then s.threads[t] else Outside
  }

  function Move(s: State, t: Thread, p: Place): State {
    s.(threads := s.threads[t := p])
  }

  /** `unlock` is unsafe: only a holder may call it. */
  predicate Allowed(s: State, step: Step) {
    match step
    case BeginLock(t) => At(s, t) == Outside
    case Spin(t) => At(s, t) == Spinning
    case TryLock(t) => At(s, t) == Outside
    case Unlock(t) => At(s, t) == Holding
  }

  /** `swap(true)` returns the old flag; the caller has the lock if it was false. */
  function Apply(s: State, step: Step): State {
    match step
    case BeginLock(t) => Move(s, t, Spinning)
    case Spin(t) => if s.flag then s else Move(s.(flag := true, acquired := s.acquired + 1), t, Holding)
    case TryLock(t) => if s.flag then s else Move(s.(flag := true, acquired := s.acquired + 1), t, Holding)
    case Unlock(t) => Move(s.(flag := false, released := s.released + 1), t, Outside)
  }

  function Exec(steps: seq<Step>): State {
    if steps == [] then INIT else Apply(Exec(steps[..|steps| - 1]), steps[|steps| - 1])
  }

  predicate Legal(steps: seq<Step>) {
    forall i :: 0 <= i < |steps| ==> Allowed(Exec(steps[..i]), steps[i])
  }

  predicate Holds(s: State, t: Thread) { At(s, t) == Holding }

  /** At most one thread holds the lock. */
  ghost predicate Exclusive(s: State) {
    forall t, u :: Holds(s, t) && Holds(s, u) ==> t == u
  }

  ghost predicate Safe(s: State) {
    && Exclusive(s)
    && (s.flag <==> exists t :: Holds(s, t))
    && s.acquired == s.released + if s.flag then 1 else 0
  }

  lemma {:induction false} StepSafe(s: State, step: Step)
    requires Safe(s) && Allowed(s, step)
    ensures Safe(Apply(s, step))
  {
    var r := Apply(s, step);
    match step {
      case BeginLock(t) =>
        assert forall u :: Holds(r, u) <==> Holds(s, u);
      case Spin(t) => if !s.flag { Acquires(s, r, t); }
      case TryLock(t) => if !s.flag { Acquires(s, r, t); }
      case Unlock(t) =>
        assert Holds(s, t);
        forall u ensures !Holds(r, u) { assert u != t ==> Holds(r, u) == Holds(s, u); }
    }
  }

  lemma {:induction false} Acquires(s: State, r: State, t: Thread)
    requires Safe(s) && !s.flag && r == Move(s.(flag := true, acquired := s.acquired + 1), t, Holding)
    ensures Safe(r)
  {
    forall u: Thread ensures Holds(r, u) <==> u == t {
      assert !Holds(s, u);
    }
    assert Holds(r, t);
  }

  /** Over every interleaving of any number of threads: the flag is set exactly
      when somebody holds the lock, two threads never do, and acquisitions and
      releases alternate. */
  lemma {:induction false} MutualExclusion(steps: seq<Step>)
    requires Legal(steps)
    ensures Safe(Exec(steps))
  {
    hide Apply, Allowed;
    if steps != [] {
      var init := steps[..|steps| - 1];
      forall i | 0 <= i < |init| ensures Allowed(Exec(init[..i]), init[i]) { assert init[..i] == steps[..i]; }
      MutualExclusion(init);
      StepSafe(Exec(init), steps[|steps| - 1]);
    } else {
      assert Safe(INIT) by { InitSafe(); }
    }
  }

  lemma {:induction false} InitSafe()
    ensures Safe(INIT)
  {
  }

  /** A swap of a spinning or trying thread succeeds exactly when nobody holds
      the lock. */
  lemma {:induction false} AcquiresExactlyWhenFree(steps: seq<Step>, t: Thread, step: Step)
    requires Legal(steps) && (step == Spin(t) || step == TryLock(t)) && Allowed(Exec(steps), step)
    ensures Holds(Apply(Exec(steps), step), t) <==> forall u :: !Holds(Exec(steps), u)
  {
    MutualExclusion(steps);
  }

  /** The rule on `unlock` is exact: a store keeps the invariant if and only if
      its thread holds the lock. */
  lemma {:induction false} UnlockSafeExactly(s: State, t: Thread)
    requires Safe(s)
    ensures Safe(Apply(s, Step.Unlock(t))) <==> Holds(s, t)
  {
    if Holds(s, t) {
      StepSafe(s, Step.Unlock(t));
    } else if s.flag {
      var u :| Holds(s, u);
      assert Holds(Apply(s, Step.Unlock(t)), u);
    }
  }

  /** One store by a thread that does not hold the lock lets a second one in. */
  lemma {:induction false} ForeignUnlockBreaks()
    ensures var s := Apply(Apply(Apply(INIT, TryLock(0)), Unlock(1)), TryLock(2));
      Holds(s, 0) && Holds(s, 2)
  {
  }

  // ---------- the mutex itself ----------

  /** The atomic flag. The ghost arguments name the protocol state the flag
      belongs to and the calling thread. */
  class Ps3RawMutex {
    var flag: bool

    constructor ()
      ensures flag == INIT.flag == false
    {
      flag := false;
    }

    /** The atomic read-modify-write. */
    method Swap(value: bool) returns (was: bool)
      modifies this
      ensures flag == value && was == old(flag)
    {
      was := flag;
      flag := value;
    }

    /** One iteration of the loop in `lock`; the loop ends when it succeeds. */
    method LockOnce(ghost s: State, ghost t: Thread) returns (acquired: bool)
      requires s.flag == flag && Allowed(s, Spin(t))
      modifies this
      ensures flag && acquired == !old(flag)
      ensures flag == Apply(s, Spin(t)).flag && acquired == Holds(Apply(s, Spin(t)), t)
    {
      var was := Swap(true);
      acquired := !was;
    }

    method TryLock(ghost s: State, ghost t: Thread) returns (acquired: bool)
      requires s.flag == flag && Allowed(s, Step.TryLock(t))
      modifies this
      ensures flag && acquired == !old(flag)
      ensures flag == Apply(s, Step.TryLock(t)).flag && acquired == Holds(Apply(s, Step.TryLock(t)), t)
    {
      var was := Swap(true);
      acquired := !was;
    }

    method Unlock(ghost s: State, ghost t: Thread)
      requires s.flag == flag && Allowed(s, Step.Unlock(t))
      modifies this
      ensures !flag
      ensures flag == Apply(s, Step.Unlock(t)).flag && !Holds(Apply(s, Step.Unlock(t)), t)
    {
      flag := false;
    }
  }
}
