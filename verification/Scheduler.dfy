/** The multiprocessor thread scheduler: a ring of tasks, each processor taking the ones of its residue
    class, and the spin lock the threads share. */
module Scheduler {
  import Bits

  // ---------- the search for the next task ----------

  /** Processor `c` of `cpus`, and `n` tasks. */
  predicate Setup(c: nat, cpus: nat, n: nat) {
    c < cpus <= n
  }

  function RingNext(i: nat, n: nat): nat
    requires i < n
  {
    if i + 1 == n then 0 else i + 1
  }

  /** The task belongs to the processor. */
  predicate InClass(t: nat, c: nat, cpus: nat)
    requires c < cpus
  {
    t % cpus == c
  }

  /** How far behind `i + 1` the next number of the residue class lies. */
  function Ahead(i: nat, c: nat, cpus: nat): nat
    requires c < cpus
  {
    var r := (i + 1) % cpus;
    if r <= c then c - r else c - r + cpus
  }

  /** The task the processor takes after `i`: the next of its residue class, or the first of it. */
  function NextTask(i: nat, c: nat, cpus: nat, n: nat): (t: nat)
    requires Setup(c, cpus, n) && i < n
    ensures t < n
  {
    var t := i + 1 + Ahead(i, c, cpus);
    if t < n then t else c
  }

  /** Steps round the ring from `i` to that task. */
  function Gap(i: nat, c: nat, cpus: nat, n: nat): (g: nat)
    requires Setup(c, cpus, n) && i < n
    ensures 1 <= g <= n
  {
    var t := NextTask(i, c, cpus, n);
    if t > i then t - i else t + n - i
  }

  lemma AheadNext(i: nat, c: nat, cpus: nat)
    requires c < cpus
    ensures InClass(i + 1, c, cpus) <==> Ahead(i, c, cpus) == 0
    ensures Ahead(i, c, cpus) > 0 ==> Ahead(i + 1, c, cpus) == Ahead(i, c, cpus) - 1
    ensures i < c ==> Ahead(i, c, cpus) == c - (i + 1)
  {
    Bits.NextDivMod(i + 1, cpus);
    if i < c {
      Bits.SmallDivMod(i + 1, cpus);
    }
  }

  lemma AheadOfZero(c: nat, cpus: nat)
    requires c < cpus
    ensures (InClass(0, c, cpus) <==> c == 0) && (c > 0 ==> Ahead(0, c, cpus) == c - 1)
  {
    Bits.SmallDivMod(0, cpus);
    if c > 0 {
      Bits.SmallDivMod(1, cpus);
    }
  }

  /** One step round the ring either arrives or keeps the target and shortens the way. */
  lemma SearchStep(i: nat, c: nat, cpus: nat, n: nat)
    requires Setup(c, cpus, n) && i < n
    ensures var j := RingNext(i, n);
            if InClass(j, c, cpus) then NextTask(i, c, cpus, n) == j
            else NextTask(j, c, cpus, n) == NextTask(i, c, cpus, n) && Gap(j, c, cpus, n) < Gap(i, c, cpus, n)
  {
    hide Ahead, InClass;
    AheadNext(i, c, cpus);
    AheadOfZero(c, cpus);
  }

  lemma NextInClass(i: nat, c: nat, cpus: nat, n: nat)
    requires Setup(c, cpus, n) && i < n
    ensures InClass(NextTask(i, c, cpus, n), c, cpus)
    decreases Gap(i, c, cpus, n)
  {
    SearchStep(i, c, cpus, n);
    var j := RingNext(i, n);
    if !InClass(j, c, cpus) {
      NextInClass(j, c, cpus, n);
    }
  }

  /** Round robin: from a task of the class to the one `cpus` further, and from the last to the first. */
  lemma RoundRobin(t: nat, c: nat, cpus: nat, n: nat)
    requires Setup(c, cpus, n) && t < n && InClass(t, c, cpus)
    ensures NextTask(t, c, cpus, n) == if t + cpus < n then t + cpus else c
  {
    Bits.NextDivMod(t, cpus);
  }

  /** The search would find a task on a ring of `n` tasks exactly if there is one of that class. */
  lemma FindsIff(c: nat, cpus: nat, n: nat)
    requires c < cpus
    ensures (exists t: nat :: t < n && InClass(t, c, cpus)) <==> c < n
  {
    Bits.SmallDivMod(c, cpus);
    assert InClass(c, c, cpus);
    forall t: nat | t < n && InClass(t, c, cpus)
      ensures c < n
    {
      assert t >= t % cpus by {
        Bits.DivMonotone(0, t, cpus);
        Bits.DivUnique(0, cpus, 0, 0);
        ModAtMost(t, cpus);
      }
    }
  }

  lemma ModAtMost(t: nat, m: nat)
    requires m > 0
    ensures t % m <= t
  {
    if t < m {
      Bits.SmallDivMod(t, m);
    }
  }

  // ---------- round robin over whole runs ----------

  /** Number of tasks of the class. */
  function ClassSize(c: nat, cpus: nat, n: nat): (k: nat)
    requires Setup(c, cpus, n)
    ensures k > 0
  {
    Bits.DivMonotone(0, n - 1 - c, cpus);
    Bits.DivUnique(0, cpus, 0, 0);
    (n - 1 - c) / cpus + 1
  }

  lemma ClassSizeIs(m: nat, c: nat, cpus: nat, n: nat)
    requires Setup(c, cpus, n)
    ensures m < ClassSize(c, cpus, n) <==> c + m * cpus < n
  {
    var x := n - 1 - c;
    var q := x / cpus;
    assert x == q * cpus + x % cpus;
    if m <= q {
      Bits.TimesSum(m, q - m, cpus);
      Bits.NotNegative(q - m, cpus);
    } else {
      Bits.TimesSum(q + 1, m - q - 1, cpus);
      Bits.TimesSum(q, 1, cpus);
      Bits.NotNegative(m - q - 1, cpus);
    }
  }

  /** The task after `k` turns. */
  function Turn(i: nat, c: nat, cpus: nat, n: nat, k: nat): (t: nat)
    requires Setup(c, cpus, n) && i < n
    ensures t < n
  {
    if k == 0 then i else NextTask(Turn(i, c, cpus, n, k - 1), c, cpus, n)
  }

  /** Starting with the first task of the class, turn `k` has the task numbered `k` modulo the size of the class. */
  lemma {:induction false} TurnIs(c: nat, cpus: nat, n: nat, k: nat)
    requires Setup(c, cpus, n)
    ensures Turn(c, c, cpus, n, k) == c + k % ClassSize(c, cpus, n) * cpus
  {
    var size := ClassSize(c, cpus, n);
    if k == 0 {
      Bits.SmallDivMod(0, size);
    } else {
      TurnIs(c, cpus, n, k - 1);
      var m := (k - 1) % size;
      Bits.NextDivMod(k - 1, size);
      ClassSizeIs(m, c, cpus, n);
      ClassSizeIs(m + 1, c, cpus, n);
      Bits.DivAddMultiple(c, cpus, m);
      Bits.SmallDivMod(c, cpus);
      RoundRobin(c + m * cpus, c, cpus, n);
      Bits.TimesSum(m, 1, cpus);
    }
  }

  /** No task starves: every task of the class has its turn, once in each round. */
  lemma EveryTaskTurns(t: nat, c: nat, cpus: nat, n: nat, round: nat)
    requires Setup(c, cpus, n) && t < n && InClass(t, c, cpus)
    ensures var size := ClassSize(c, cpus, n);
            t / cpus < size && Turn(c, c, cpus, n, round * size + t / cpus) == t
  {
    var size, m := ClassSize(c, cpus, n), t / cpus;
    assert t == m * cpus + c;
    Bits.DivMonotone(0, t, cpus);
    Bits.DivUnique(0, cpus, 0, 0);
    ClassSizeIs(m, c, cpus, n);
    Bits.DivAddMultiple(m, size, round);
    Bits.SmallDivMod(m, size);
    Bits.NotNegative(round, size);
    TurnIs(c, cpus, n, round * size + m);
  }

  // ---------- the interrupt handler, one processor at a time ----------

  /** What a thread has saved: its own state, and whether it is between `lock` and `unlock`. */
  datatype Context = Context(state: int, inside: bool)

  class Kernel {
    const n: nat
    const cpus: nat
    /** `current` of each processor, -1 for none yet. */
    const currents: array<int>
    /** The ring pointers and the saved contexts of the tasks. */
    const next: array<nat>
    const contexts: array<Context>

    ghost predicate Valid()
      reads this, currents, next
    {
      && 0 < cpus <= n && currents.Length == cpus && next.Length == contexts.Length == n
      && (forall i | 0 <= i < n :: next[i] == RingNext(i, n))
      && (forall c | 0 <= c < cpus :: -1 <= currents[c] < n)
    }

    /** `main`: the tasks linked in a ring, their first contexts, and no task on any processor. */
    constructor (n: nat, cpus: nat, first: nat -> Context)
      requires 0 < cpus <= n
      ensures Valid() && this.n == n && this.cpus == cpus && fresh(currents) && fresh(next) && fresh(contexts)
      ensures (forall c | 0 <= c < cpus :: currents[c] == -1) && forall t | 0 <= t < n :: contexts[t] == first(t)
    {
      this.n, this.cpus := n, cpus;
      currents := new int[cpus](_ => -1);
      next := new nat[n](_ => 0);
      contexts := new Context[n](t requires 0 <= t < n => first(t));
      new;
      for i := 0 to n
        invariant forall k | 0 <= k < i :: next[k] == RingNext(k, n)
        invariant (forall c | 0 <= c < cpus :: currents[c] == -1) && forall t | 0 <= t < n :: contexts[t] == first(t)
      {
        RingIsModular(i, n);
        next[i] := (i + 1) % n;
      }
    }

    /** on_interrupt: saves the interrupted task and finds the next one of the processor's class. */
    method OnInterrupt(cpu: nat, ctx: Context) returns (resumed: Context)
      requires Valid() && cpu < cpus
      modifies currents, contexts
      ensures Valid() && forall c | 0 <= c < cpus && c != cpu :: currents[c] == old(currents[c])
      ensures var from := if old(currents[cpu]) == -1 then 0 else old(currents[cpu]);
              currents[cpu] == NextTask(from, cpu, cpus, n) && InClass(currents[cpu], cpu, cpus)
      ensures forall t | 0 <= t < n :: contexts[t] == if t == old(currents[cpu]) then ctx else old(contexts[t])
      ensures resumed == contexts[currents[cpu]]
    {
      if currents[cpu] == -1 {
        currents[cpu] := 0;
      } else {
        contexts[currents[cpu]] := ctx;
      }
      ghost var from: nat := currents[cpu];
      var searching := true;
      while searching
        invariant Valid() && 0 <= currents[cpu] && forall c | 0 <= c < cpus && c != cpu :: currents[c] == old(currents[c])
        invariant if searching then NextTask(currents[cpu], cpu, cpus, n) == NextTask(from, cpu, cpus, n)
                  else currents[cpu] == NextTask(from, cpu, cpus, n) && InClass(currents[cpu], cpu, cpus)
        invariant contexts[..] == old(contexts[..]) || (0 <= old(currents[cpu]) && contexts[..] == old(contexts[..])[old(currents[cpu]) := ctx])
        invariant old(currents[cpu]) >= 0 ==> contexts[old(currents[cpu])] == ctx
        decreases searching, if searching then Gap(currents[cpu], cpu, cpus, n) else 0
      {
        SearchStep(currents[cpu], cpu, cpus, n);
        currents[cpu] := next[currents[cpu]];
        searching := !InClass(currents[cpu], cpu, cpus);
      }
      resumed := contexts[currents[cpu]];
    }
  }

  lemma RingIsModular(i: nat, n: nat)
    requires i < n
    ensures (i + 1) % n == RingNext(i, n)
  {
    if i + 1 == n {
      Bits.DivUnique(n, n, 1, 0);
    } else {
      Bits.SmallDivMod(i + 1, n);
    }
  }

  // ---------- all processors at once ----------

  /** What a processor is doing: booting, searching in the handler, or running a thread. */
  datatype Mode = Boot | Searching | Running(ctx: Context)

  /** `latest` is the history of the threads: the state each one has really reached. */
  datatype System = System(n: nat, current: seq<int>, mode: seq<Mode>, saved: seq<Context>, locked: bool, latest: seq<Context>)

  /** One step of one processor. The handler's search is not atomic: other processors may step in between. */
  datatype Action =
    | Interrupt(c: nat)
    | Search(c: nat)
    | Work(c: nat, state: int)
    | TryLock(c: nat)
    | Unlock(c: nat)

  predicate SystemOk(s: System) {
    && 0 < |s.current| == |s.mode| <= s.n == |s.saved| == |s.latest|
    && (forall c | 0 <= c < |s.mode| :: s.mode[c].Boot? || 0 <= s.current[c] < s.n)
  }

  /** `lock` is called outside the critical section only, and `unlock` inside it. */
  predicate Enabled(s: System, a: Action)
    requires SystemOk(s)
  {
    && a.c < |s.mode|
    && match a
       case Interrupt(c) => !s.mode[c].Searching?
       case Search(c) => s.mode[c].Searching?
       case Work(c, _) => s.mode[c].Running?
       case TryLock(c) => s.mode[c].Running? && !s.mode[c].ctx.inside
       case Unlock(c) => s.mode[c].Running? && s.mode[c].ctx.inside
  }

  /** A running thread reaches a new state. */
  function Reach(s: System, c: nat, ctx: Context): System
    requires SystemOk(s) && c < |s.mode| && s.mode[c].Running?
  {
    s.(mode := s.mode[c := Running(ctx)], latest := s.latest[s.current[c] := ctx])
  }

  function Step(s: System, a: Action): (s': System)
    requires SystemOk(s) && Enabled(s, a)
    ensures SystemOk(s')
  {
    match a
    case Interrupt(c) =>
      if s.mode[c].Boot? then s.(current := s.current[c := 0], mode := s.mode[c := Searching])
      else s.(saved := s.saved[s.current[c] := s.mode[c].ctx], mode := s.mode[c := Searching])
    case Search(c) =>
      var t := RingNext(s.current[c], s.n);
      s.(current := s.current[c := t],
         mode := s.mode[c := if InClass(t, c, |s.mode|) then Running(s.saved[t]) else Searching])
    case Work(c, state) => Reach(s, c, s.mode[c].ctx.(state := state))
    // atomic exchange with 1: the lock is taken by whoever finds a 0
    case TryLock(c) => if s.locked then s else Reach(s, c, s.mode[c].ctx.(inside := true)).(locked := true)
    case Unlock(c) => Reach(s, c, s.mode[c].ctx.(inside := false)).(locked := false)
  }

  /** The processor of a task runs it. */
  predicate RunsTask(s: System, t: nat)
    requires SystemOk(s) && t < s.n
  {
    var c := t % |s.mode|;
    s.mode[c].Running? && s.current[c] == t
  }

  /** Safety: a running task is one of the processor's class and runs on from its latest state; the
      latest state of any other task is the saved one; and the lock is held exactly when a task is
      inside, never by two. */
  predicate Safe(s: System) {
    && SystemOk(s)
    && (forall c: nat | c < |s.mode| && s.mode[c].Running? ::
          InClass(s.current[c], c, |s.mode|) && s.mode[c].ctx == s.latest[s.current[c]])
    && (forall t: nat | t < s.n && !RunsTask(s, t) :: s.saved[t] == s.latest[t])
    && (forall t, u | 0 <= t < s.n && 0 <= u < s.n && s.latest[t].inside && s.latest[u].inside :: t == u)
    && (s.locked <==> exists t :: 0 <= t < s.n && s.latest[t].inside)
  }

  /** All processors booting, all threads outside the critical section. */
  predicate Initial(s: System) {
    && 0 < |s.current| == |s.mode| <= s.n == |s.saved| && s.latest == s.saved && !s.locked
    && (forall c | 0 <= c < |s.mode| :: s.mode[c].Boot?)
    && forall t | 0 <= t < s.n :: !s.saved[t].inside
  }

  lemma InitiallySafe(s: System)
    requires Initial(s)
    ensures Safe(s)
  {
  }

  lemma ReachSafe(s: System, c: nat, ctx: Context)
    requires Safe(s) && c < |s.mode| && s.mode[c].Running? && ctx.inside == s.mode[c].ctx.inside
    ensures Safe(Reach(s, c, ctx))
  {
    var s', t := Reach(s, c, ctx), s.current[c];
    forall u: nat | u < s.n
      ensures RunsTask(s', u) == RunsTask(s, u) && s'.latest[u].inside == s.latest[u].inside
      ensures !RunsTask(s', u) ==> s'.saved[u] == s'.latest[u]
    {
    }
    assert s'.latest[t].inside == s.latest[t].inside;
    if s.locked {
      var u :| 0 <= u < s.n && s.latest[u].inside;
      assert s'.latest[u].inside;
    }
  }

  lemma InterruptSafe(s: System, c: nat)
    requires Safe(s) && Enabled(s, Interrupt(c))
    ensures Safe(Step(s, Interrupt(c)))
  {
    var s' := Step(s, Interrupt(c));
    assert s'.latest == s.latest;
    forall u: nat | u < s.n && !RunsTask(s', u)
      ensures s'.saved[u] == s'.latest[u]
    {
      if RunsTask(s, u) {
        assert u % |s.mode| == c;
      }
    }
  }

  lemma SearchSafe(s: System, c: nat)
    requires Safe(s) && Enabled(s, Search(c))
    ensures Safe(Step(s, Search(c)))
  {
    var s' := Step(s, Search(c));
    var t := RingNext(s.current[c], s.n);
    assert s'.latest == s.latest && s'.saved == s.saved;
    assert InClass(t, c, |s.mode|) ==> !RunsTask(s, t);
    forall u: nat | u < s.n && !RunsTask(s', u)
      ensures !RunsTask(s, u)
    {
      if u % |s.mode| == c {
      } else {
        assert RunsTask(s', u) == RunsTask(s, u);
      }
    }
  }

  lemma TryLockSafe(s: System, c: nat)
    requires Safe(s) && Enabled(s, TryLock(c))
    ensures Safe(Step(s, TryLock(c)))
  {
    if !s.locked {
      var s' := Step(s, TryLock(c));
      var t := s.current[c];
      assert s'.latest[t].inside && forall u | 0 <= u < s.n && u != t :: s'.latest[u] == s.latest[u] && !s.latest[u].inside;
      OthersKept(s, c, s.mode[c].ctx.(inside := true));
    }
  }

  lemma UnlockSafe(s: System, c: nat)
    requires Safe(s) && Enabled(s, Unlock(c))
    ensures Safe(Step(s, Unlock(c)))
  {
    var s' := Step(s, Unlock(c));
    var t := s.current[c];
    assert s.latest[t].inside;
    assert forall u | 0 <= u < s.n :: !s'.latest[u].inside;
    OthersKept(s, c, s.mode[c].ctx.(inside := false));
  }

  lemma OthersKept(s: System, c: nat, ctx: Context)
    requires Safe(s) && c < |s.mode| && s.mode[c].Running?
    ensures var s' := Reach(s, c, ctx);
            && SystemOk(s')
            && (forall d: nat | d < |s'.mode| && s'.mode[d].Running? ::
                  InClass(s'.current[d], d, |s'.mode|) && s'.mode[d].ctx == s'.latest[s'.current[d]])
            && (forall u: nat | u < s.n && !RunsTask(s', u) :: s'.saved[u] == s'.latest[u])
  {
    var s' := Reach(s, c, ctx);
    forall u: nat | u < s.n
      ensures RunsTask(s', u) == RunsTask(s, u)
    {
    }
    assert RunsTask(s, s.current[c]);
  }

  /** Every step keeps the system safe. */
  lemma StepSafe(s: System, a: Action)
    requires Safe(s) && Enabled(s, a)
    ensures Safe(Step(s, a))
  {
    match a {
      case Interrupt(c) => InterruptSafe(s, c);
      case Search(c) => SearchSafe(s, c);
      case Work(c, state) => ReachSafe(s, c, s.mode[c].ctx.(state := state));
      case TryLock(c) => TryLockSafe(s, c);
      case Unlock(c) => UnlockSafe(s, c);
    }
  }

  /** A step of one processor leaves the others alone, and every task but the one that has been running on it. */
  lemma OthersUntouched(s: System, a: Action)
    requires SystemOk(s) && Enabled(s, a)
    ensures var s' := Step(s, a);
            && |s'.mode| == |s.mode| && s'.n == s.n
            && (forall d | 0 <= d < |s.mode| && d != a.c :: s'.mode[d] == s.mode[d] && s'.current[d] == s.current[d])
            && forall t | 0 <= t < s.n && t != s.current[a.c] :: s'.saved[t] == s.saved[t] && s'.latest[t] == s.latest[t]
  {
  }

  /** An interrupt saves the running task as it is and starts a search from it. */
  lemma InterruptSaves(s: System, c: nat)
    requires SystemOk(s) && Enabled(s, Interrupt(c))
    ensures var s' := Step(s, Interrupt(c));
            && s'.mode[c].Searching? && s'.latest == s.latest && s'.locked == s.locked
            && (s.mode[c].Running? ==> s'.saved[s.current[c]] == s.mode[c].ctx && s'.current[c] == s.current[c])
            && (s.mode[c].Boot? ==> s'.saved == s.saved && s'.current[c] == 0)
  {
  }

  /** The lock is taken by a task that finds it free, and by no other; unlocking frees it; work changes the
      state of the running task only. */
  lemma LockHandedOver(s: System, c: nat, state: int)
    requires Safe(s) && c < |s.mode| && s.mode[c].Running?
    ensures var ctx, t := s.mode[c].ctx, s.current[c];
            && (!s.locked ==> !ctx.inside && var s' := Step(s, TryLock(c));
                  s'.locked && s'.latest[t].inside && s'.latest[t].state == ctx.state)
            && (s.locked && !ctx.inside ==> Step(s, TryLock(c)) == s)
            && (ctx.inside ==> var s' := Step(s, Unlock(c));
                  !s'.locked && !s'.latest[t].inside && s'.latest[t].state == ctx.state)
            && (var s' := Step(s, Work(c, state));
                  s'.latest[t] == Context(state, ctx.inside) && s'.locked == s.locked && s'.mode[c] == Running(s'.latest[t]))
  {
    assert s.mode[c].ctx == s.latest[s.current[c]];
  }

  /** The system after a run of steps, each of them possible when it is taken. */
  ghost predicate Reaches(s: System, actions: seq<Action>, s': System)
    decreases |actions|
  {
    if actions == [] then s == s'
    else SystemOk(s) && Enabled(s, actions[0]) && Reaches(Step(s, actions[0]), actions[1..], s')
  }

  /** Whatever the interleaving, the system stays safe: each thread runs as if it were never interrupted,
      no two processors run the same one, and at most one is between `lock` and `unlock`. */
  lemma {:induction false} RunSafe(s: System, actions: seq<Action>, s': System)
    requires Initial(s) || Safe(s)
    requires Reaches(s, actions, s')
    ensures Safe(s') && NoSharing(s')
    decreases |actions|
  {
    if Initial(s) {
      InitiallySafe(s);
    }
    if actions == [] {
      SafeNoSharing(s');
    } else {
      StepSafe(s, actions[0]);
      hide Safe, Step, Initial;
      RunSafe(Step(s, actions[0]), actions[1..], s');
    }
  }

  predicate NoSharing(s: System)
    requires SystemOk(s)
  {
    forall c, d | 0 <= c < d < |s.mode| && s.mode[c].Running? && s.mode[d].Running? :: s.current[c] != s.current[d]
  }

  lemma SafeNoSharing(s: System)
    requires Safe(s)
    ensures NoSharing(s)
  {
    forall c: nat, d: nat | c < d < |s.mode| && s.mode[c].Running? && s.mode[d].Running?
      ensures s.current[c] != s.current[d]
    {
      assert InClass(s.current[c], c, |s.mode|) && InClass(s.current[d], d, |s.mode|);
    }
  }

  /** A search ends: a step of its own ends it with the task it was heading for and that task's latest
      context, or comes closer to that task; steps of other processors leave it where it is. */
  lemma SearchProgress(s: System, a: Action, c: nat)
    requires Safe(s) && Enabled(s, a) && c < |s.mode| && s.mode[c].Searching?
    ensures var s', cpus := Step(s, a), |s.mode|;
            var target := NextTask(s.current[c], c, cpus, s.n);
            if a == Search(c) then
              (s'.mode[c].Running? && s'.current[c] == target && s'.mode[c].ctx == s.latest[target])
              || (s'.mode[c].Searching? && NextTask(s'.current[c], c, cpus, s.n) == target
                  && Gap(s'.current[c], c, cpus, s.n) < Gap(s.current[c], c, cpus, s.n))
            else s'.mode[c].Searching? && s'.current[c] == s.current[c]
  {
    SearchStep(s.current[c], c, |s.mode|, s.n);
    if a == Search(c) {
      StepSafe(s, a);
      hide NextTask, Gap;
    }
  }

  // ---------- fairness over all interleavings ----------

  /** The task the processor takes next: the one its search is heading for, or the one after its own. */
  function Due(s: System, c: nat): (t: nat)
    requires SystemOk(s) && c < |s.mode|
    ensures t < s.n
  {
    NextTask(if s.mode[c].Boot? then 0 else s.current[c], c, |s.mode|, s.n)
  }

  /** A step that ends the processor's search. */
  predicate Dispatching(s: System, a: Action, c: nat)
    requires SystemOk(s) && Enabled(s, a) && c < |s.mode|
  {
    a == Search(c) && Step(s, a).mode[c].Running?
  }

  /** The tasks the processor has taken in a run, in order. */
  ghost function Dispatched(s: System, actions: seq<Action>, s': System, c: nat): (ts: seq<nat>)
    requires Reaches(s, actions, s') && SystemOk(s) && c < |s.mode|
    decreases |actions|
  {
    if actions == [] then []
    else
      var s1 := Step(s, actions[0]);
      (if Dispatching(s, actions[0], c) then [s1.current[c]] else []) + Dispatched(s1, actions[1..], s', c)
  }

  /** Every step keeps the task that is due, except that a search ends with it, and then the next one is. */
  lemma StepDue(s: System, a: Action, c: nat)
    requires SystemOk(s) && Enabled(s, a) && c < |s.mode|
    ensures var s' := Step(s, a);
            && |s'.mode| == |s.mode| && s'.n == s.n
            && (if Dispatching(s, a, c) then
                  s'.current[c] == Due(s, c) && Due(s', c) == NextTask(Due(s, c), c, |s.mode|, s.n)
                else Due(s', c) == Due(s, c))
  {
    if a == Search(c) {
      SearchStep(s.current[c], c, |s.mode|, s.n);
    }
    hide NextTask, InClass, RingNext;
  }

  lemma {:induction false} TurnFirst(i: nat, c: nat, cpus: nat, n: nat, k: nat)
    requires Setup(c, cpus, n) && i < n && k > 0
    ensures Turn(i, c, cpus, n, k) == Turn(NextTask(i, c, cpus, n), c, cpus, n, k - 1)
  {
    hide NextTask;
    if k > 1 {
      TurnFirst(i, c, cpus, n, k - 1);
    }
  }

  lemma TurnNone(i: nat, c: nat, cpus: nat, n: nat)
    requires Setup(c, cpus, n) && i < n
    ensures Turn(i, c, cpus, n, 0) == i
  {
  }

  /** `ts` has the turns after `due`. */
  ghost predicate InTurn(ts: seq<nat>, due: nat, c: nat, cpus: nat, n: nat) {
    Setup(c, cpus, n) && due < n && forall k | 0 <= k < |ts| :: ts[k] == Turn(due, c, cpus, n, k)
  }

  lemma OneMoreTurn(ts: seq<nat>, due: nat, rest: seq<nat>, c: nat, cpus: nat, n: nat)
    requires Setup(c, cpus, n) && due < n && ts == [due] + rest && InTurn(rest, NextTask(due, c, cpus, n), c, cpus, n)
    ensures InTurn(ts, due, c, cpus, n)
    ensures Turn(due, c, cpus, n, |ts|) == Turn(NextTask(due, c, cpus, n), c, cpus, n, |rest|)
  {
    TurnNone(due, c, cpus, n);
    hide NextTask, Turn;
    TurnFirst(due, c, cpus, n, |ts|);
    forall k | 0 < k < |ts|
      ensures ts[k] == Turn(due, c, cpus, n, k)
    {
      TurnFirst(due, c, cpus, n, k);
      assert ts[k] == rest[k - 1];
    }
  }

  /** Whatever the interleaving: the tasks a processor takes are the turns that follow the one due. */
  lemma {:induction false} DispatchedInTurn(s: System, actions: seq<Action>, s': System, c: nat)
    requires SystemOk(s) && Reaches(s, actions, s') && c < |s.mode|
    ensures SystemOk(s') && |s'.mode| == |s.mode| && s'.n == s.n
    ensures var ts, cpus := Dispatched(s, actions, s', c), |s.mode|;
            && InTurn(ts, Due(s, c), c, cpus, s.n)
            && Due(s', c) == Turn(Due(s, c), c, cpus, s.n, |ts|)
    decreases |actions|
  {
    if actions != [] {
      var s1, cpus, due := Step(s, actions[0]), |s.mode|, Due(s, c);
      StepDue(s, actions[0], c);
      DispatchedInTurn(s1, actions[1..], s', c);
      var ts, rest := Dispatched(s, actions, s', c), Dispatched(s1, actions[1..], s', c);
      if Dispatching(s, actions[0], c) {
        assert ts == [due] + rest;
        hide *;
        OneMoreTurn(ts, due, rest, c, cpus, s.n);
      }
    }
  }

  /** The search steps the processor makes in a run. */
  function Searches(actions: seq<Action>, c: nat): nat {
    if actions == [] then 0 else (if actions[0] == Search(c) then 1 else 0) + Searches(actions[1..], c)
  }

  /** Steps its search has left at most. */
  function Left(s: System, c: nat): (k: nat)
    requires SystemOk(s) && c < |s.mode|
    ensures k <= s.n
  {
    if s.mode[c].Searching? then Gap(s.current[c], c, |s.mode|, s.n) else s.n
  }

  lemma StepLeft(s: System, a: Action, c: nat)
    requires SystemOk(s) && Enabled(s, a) && c < |s.mode|
    ensures var s' := Step(s, a);
            && |s'.mode| == |s.mode| && s'.n == s.n && 1 <= Left(s', c)
            && (if a == Search(c) then 1 else 0) + Left(s', c) <= Left(s, c) + if Dispatching(s, a, c) then s.n else 0
  {
    if a == Search(c) {
      SearchStep(s.current[c], c, |s.mode|, s.n);
    }
    hide NextTask, InClass, RingNext, Gap;
  }

  /** No search takes more than `n` steps, whatever the others do meanwhile. */
  lemma {:induction false} SearchesEnd(s: System, actions: seq<Action>, s': System, c: nat)
    requires SystemOk(s) && Reaches(s, actions, s') && c < |s.mode|
    ensures SystemOk(s') && |s'.mode| == |s.mode| && 1 <= Left(s', c)
    ensures Searches(actions, c) + Left(s', c) <= Left(s, c) + s.n * |Dispatched(s, actions, s', c)|
    decreases |actions|
  {
    if actions == [] {
      assert 1 <= Left(s, c) by {
        hide NextTask;
      }
    } else {
      var s1 := Step(s, actions[0]);
      StepLeft(s, actions[0], c);
      SearchesEnd(s1, actions[1..], s', c);
      var ts, rest := Dispatched(s, actions, s', c), Dispatched(s1, actions[1..], s', c);
      assert |ts| == |rest| + if Dispatching(s, actions[0], c) then 1 else 0;
      assert Searches(actions, c) == (if actions[0] == Search(c) then 1 else 0) + Searches(actions[1..], c);
      hide *;
      Bits.TimesSum(|rest|, 1, s.n);
      Bits.TimesCommutes(|rest|, s.n);
      Bits.TimesCommutes(|ts|, s.n);
    }
  }

  lemma {:induction false} TurnSum(i: nat, c: nat, cpus: nat, n: nat, a: nat, b: nat)
    requires Setup(c, cpus, n) && i < n
    ensures Turn(Turn(i, c, cpus, n, a), c, cpus, n, b) == Turn(i, c, cpus, n, a + b)
  {
    hide NextTask;
    if b > 0 {
      TurnSum(i, c, cpus, n, a, b - 1);
      assert Turn(i, c, cpus, n, a + b) == NextTask(Turn(i, c, cpus, n, a + (b - 1)), c, cpus, n);
    }
  }

  /** The turns after task `i` go on from it round the class. */
  lemma TurnFrom(i: nat, c: nat, cpus: nat, n: nat, k: nat)
    requires Setup(c, cpus, n) && i < n && InClass(i, c, cpus)
    ensures i / cpus >= 0 && Turn(i, c, cpus, n, k) == c + (i / cpus + k) % ClassSize(c, cpus, n) * cpus
  {
    hide Turn, ClassSize;
    EveryTaskTurns(i, c, cpus, n, 0);
    Bits.DivMonotone(0, i, cpus);
    Bits.DivUnique(0, cpus, 0, 0);
    TurnSum(c, c, cpus, n, i / cpus, k);
    TurnIs(c, cpus, n, i / cpus + k);
  }

  /** Round robin over every run: a processor takes the tasks of its class one after the other, beginning
      with the one that was due, and after the last the first. */
  lemma DispatchedRound(s: System, actions: seq<Action>, s': System, c: nat, k: nat)
    requires SystemOk(s) && Reaches(s, actions, s') && c < |s.mode| && k < |Dispatched(s, actions, s', c)|
    ensures Due(s, c) / |s.mode| >= 0
    ensures Dispatched(s, actions, s', c)[k] == c + (Due(s, c) / |s.mode| + k) % ClassSize(c, |s.mode|, s.n) * |s.mode|
  {
    hide Turn, ClassSize, Dispatched, Reaches;
    DispatchedInTurn(s, actions, s', c);
    NextInClass(if s.mode[c].Boot? then 0 else s.current[c], c, |s.mode|, s.n);
    TurnFrom(Due(s, c), c, |s.mode|, s.n, k);
  }

  /** Some number of `size` consecutive ones has the remainder `m`. */
  lemma NextWith(p: nat, size: nat, m: nat) returns (d: nat)
    requires m < size
    ensures d < size && (p + d) % size == m
  {
    var q, r := p / size, p % size;
    d := if m >= r then m - r else m - r + size;
    if m >= r {
      Bits.DivUnique(p + d, size, q, m);
    } else {
      Bits.TimesSum(q, 1, size);
      Bits.DivUnique(p + d, size, q + 1, m);
    }
  }

  lemma InRound(ts: seq<nat>, p: nat, c: nat, cpus: nat, size: nat, m: nat, a: nat) returns (k: nat)
    requires m < size && a + size <= |ts| && forall k | 0 <= k < |ts| :: ts[k] == c + (p + k) % size * cpus
    ensures a <= k < a + size && ts[k] == c + m * cpus
  {
    var d := NextWith(p + a, size, m);
    k := a + d;
    assert p + a + d == p + k;
  }

  lemma TaskIs(t: nat, cpus: nat, n: nat)
    requires 0 < cpus <= n && t < n
    ensures 0 <= t / cpus < ClassSize(t % cpus, cpus, n) && t == t % cpus + t / cpus * cpus
  {
    hide Turn, ClassSize;
    EveryTaskTurns(t, t % cpus, cpus, n, 0);
    Bits.DivMonotone(0, t, cpus);
    Bits.DivUnique(0, cpus, 0, 0);
  }

  /** Among any `ClassSize` tasks a processor takes in a row is each task of its class. */
  lemma DispatchedInRound(s: System, actions: seq<Action>, s': System, t: nat, a: nat) returns (k: nat)
    requires SystemOk(s) && Reaches(s, actions, s') && t < s.n
    requires var c := t % |s.mode|; a + ClassSize(c, |s.mode|, s.n) <= |Dispatched(s, actions, s', c)|
    ensures var c := t % |s.mode|;
            a <= k < a + ClassSize(c, |s.mode|, s.n) && Dispatched(s, actions, s', c)[k] == t
  {
    var c := t % |s.mode|;
    TaskIs(t, |s.mode|, s.n);
    var ts := Dispatched(s, actions, s', c);
    forall k: nat | k < |ts|
      ensures Due(s, c) / |s.mode| >= 0
      ensures ts[k] == c + (Due(s, c) / |s.mode| + k) % ClassSize(c, |s.mode|, s.n) * |s.mode|
    {
      DispatchedRound(s, actions, s', c, k);
    }
    hide *;
    DispatchedRound(s, actions, s', c, a);
    k := InRound(ts, Due(s, c) / |s.mode|, c, |s.mode|, ClassSize(c, |s.mode|, s.n), t / |s.mode|, a);
  }

  /** No task starves, whatever the interleaving: once its processor has made `n` search steps for every
      task of the class, it has taken each of them. */
  lemma NoStarvation(s: System, actions: seq<Action>, s': System, t: nat)
    requires SystemOk(s) && Reaches(s, actions, s') && t < s.n
    requires Searches(actions, t % |s.mode|) >= s.n * ClassSize(t % |s.mode|, |s.mode|, s.n)
    ensures t in Dispatched(s, actions, s', t % |s.mode|)
  {
    var cpus := |s.mode|;
    var c := t % cpus;
    var size, ts := ClassSize(c, cpus, s.n), Dispatched(s, actions, s', c);
    SearchesEnd(s, actions, s', c);
    if |ts| < size {
      Bits.TimesSum(|ts|, size - |ts|, s.n);
      Bits.MulAtLeast(size - |ts|, s.n);
      Bits.TimesCommutes(size, s.n);
      Bits.TimesCommutes(|ts|, s.n);
      assert false;
    }
    var k := DispatchedInRound(s, actions, s', t, 0);
  }
}
