/** Any number of threads scanning the block bitmaps at once. A thread's only shared
    step is the atomic test-and-set of the bit it stands at; a schedule picks which
    thread steps next. */
module Interleaving {
  import opened Bits
  import opened BlockAllocator
  import opened BlockAllocatorLaws
  import opened Schedules

  datatype Thread =
    | Scanning(group: nat, goal: nat, at: nat)
    | Done(group: nat, goal: nat, bit: nat)
    | Failed(group: nat, goal: nat)

  datatype Machine = Machine(used: seq<seq<bool>>, threads: seq<Thread>)

  predicate ValidThread(m: Machine, t: Thread) {
    && t.group < |m.used|
    && match t
       case Scanning(g, goal, at) => goal <= at < |m.used[g]|
       case Done(g, goal, bit) => goal <= bit < |m.used[g]|
       case Failed(g, goal) => goal < |m.used[g]|
  }

  predicate Valid(m: Machine) {
    forall i :: 0 <= i < |m.threads| ==> ValidThread(m, m.threads[i])
  }

  predicate SameShape(m: Machine, m': Machine) {
    && |m'.threads| == |m.threads| && |m'.used| == |m.used|
    && forall g :: 0 <= g < |m.used| ==> |m'.used[g]| == |m.used[g]|
  }

  /** One turn of thread t; a thread that has finished does nothing. */
  function Step(m: Machine, t: nat): (m': Machine)
    requires Valid(m) && t < |m.threads|
    ensures Valid(m') && SameShape(m, m')
  {
    match m.threads[t]
    case Scanning(g, goal, at) =>
      if m.used[g][at] then
        m.(threads := m.threads[t := if |m.used[g]| <= at + 1 then Failed(g, goal) else Scanning(g, goal, at + 1)])
      else
        Machine(m.used[g := m.used[g][at := true]], m.threads[t := Done(g, goal, at)])
    case _ => m
  }

  /** Every bit before thread t's place, from its goal on, is set. */
  predicate Passed(m: Machine, t: Thread)
    requires ValidThread(m, t)
  {
    var upto := match t case Scanning(_, _, at) => at case Done(_, _, bit) => bit + 1 case Failed(g, _) => |m.used[g]|;
    forall k :: t.goal <= k < upto ==> m.used[t.group][k]
  }

  predicate Took(t: Thread, g: nat, b: nat) {
    t.Done? && t.group == g && t.bit == b
  }

  predicate Taken(m: Machine, g: nat, b: nat) {
    exists i :: 0 <= i < |m.threads| && Took(m.threads[i], g, b)
  }

  /** What holds between the bitmaps at the start and the machine at any later time:
      a bit is set exactly if it was set at the start or one thread has taken it, no
      thread took a bit set at the start, and no two threads took one bit. */
  ghost predicate Accounted(start: seq<seq<bool>>, m: Machine) {
    && Valid(m) && |start| == |m.used|
    && (forall g :: 0 <= g < |start| ==> |start[g]| == |m.used[g]|)
    && (forall g, b :: 0 <= g < |start| && 0 <= b < |start[g]| ==>
          (m.used[g][b] <==> start[g][b] || Taken(m, g, b)))
    && (forall i :: 0 <= i < |m.threads| && m.threads[i].Done? ==> !start[m.threads[i].group][m.threads[i].bit])
    && (forall i, j :: 0 <= i < j < |m.threads| && m.threads[i].Done? && m.threads[j].Done? ==>
          m.threads[i].group != m.threads[j].group || m.threads[i].bit != m.threads[j].bit)
    && (forall i :: 0 <= i < |m.threads| ==> Passed(m, m.threads[i]))
  }

  /** A turn that finds its bit set moves only the thread. */
  lemma WalkKeepsAccount(start: seq<seq<bool>>, m: Machine, t: nat)
    requires Accounted(start, m) && t < |m.threads| && m.threads[t].Scanning?
    requires m.used[m.threads[t].group][m.threads[t].at]
    ensures Accounted(start, Step(m, t))
  {
    var m' := Step(m, t);
    forall h, b ensures Taken(m', h, b) <==> Taken(m, h, b) {
      if Taken(m, h, b) {
        var i :| 0 <= i < |m.threads| && Took(m.threads[i], h, b);
        assert Took(m'.threads[i], h, b);
      }
    }
  }

  /** A turn that finds its bit clear takes it. */
  lemma TakeKeepsAccount(start: seq<seq<bool>>, m: Machine, t: nat)
    requires Accounted(start, m) && t < |m.threads| && m.threads[t].Scanning?
    requires !m.used[m.threads[t].group][m.threads[t].at]
    ensures Accounted(start, Step(m, t))
  {
    var m' := Step(m, t);
    var g, at := m.threads[t].group, m.threads[t].at;
    assert !Taken(m, g, at);
    forall h, b ensures Taken(m', h, b) <==> Taken(m, h, b) || (h == g && b == at) {
      assert Took(m'.threads[t], g, at);
      if Taken(m, h, b) {
        var i :| 0 <= i < |m.threads| && Took(m.threads[i], h, b);
        assert Took(m'.threads[i], h, b);
      }
    }
    forall i | 0 <= i < |m.threads| && i != t && m.threads[i].Done?
      ensures m.threads[i].group != g || m.threads[i].bit != at
    {
      assert Took(m.threads[i], m.threads[i].group, m.threads[i].bit);
    }
    forall i | 0 <= i < |m.threads|
      ensures Passed(m', m'.threads[i])
    {
      hide Accounted;
      assert Passed(m, m.threads[i]);
    }
  }

  /** A turn of any thread keeps the account. */
  lemma StepKeepsAccount(start: seq<seq<bool>>, m: Machine, t: nat)
    requires Accounted(start, m) && t < |m.threads|
    ensures Accounted(start, Step(m, t))
  {
    if m.threads[t].Scanning? {
      if m.used[m.threads[t].group][m.threads[t].at] {
        WalkKeepsAccount(start, m, t);
      } else {
        TakeKeepsAccount(start, m, t);
      }
    }
  }

  function Run(m: Machine, schedule: seq<nat>): (m': Machine)
    requires Valid(m) && Schedulable(|m.threads|, schedule)
    ensures Valid(m') && SameShape(m, m')
    decreases |schedule|
  {
    if schedule == [] then m else Run(Step(m, schedule[0]), schedule[1..])
  }

  /** Any schedule keeps the account. */
  lemma {:induction false} RunKeepsAccount(start: seq<seq<bool>>, m: Machine, schedule: seq<nat>)
    requires Accounted(start, m) && Schedulable(|m.threads|, schedule)
    ensures Accounted(start, Run(m, schedule))
    decreases |schedule|
  {
    if schedule != [] {
      StepKeepsAccount(start, m, schedule[0]);
      RunKeepsAccount(start, Step(m, schedule[0]), schedule[1..]);
    }
  }

  predicate AtStart(m: Machine) {
    Valid(m) && forall i :: 0 <= i < |m.threads| ==> m.threads[i].Scanning? && m.threads[i].at == m.threads[i].goal
  }

  /** Under every schedule no two threads end with one block number, and every block
      handed out was free when the threads started. */
  lemma NoBlockTakenTwice(geo: Geometry, m: Machine, schedule: seq<nat>, i: nat, j: nat)
    requires AtStart(m) && Schedulable(|m.threads|, schedule)
    requires forall g :: 0 <= g < |m.used| ==> |m.used[g]| == geo.perGroup
    requires i < |m.threads| && j < |m.threads| && i != j
    requires Run(m, schedule).threads[i].Done? && Run(m, schedule).threads[j].Done?
    ensures var a, b := Run(m, schedule).threads[i], Run(m, schedule).threads[j];
            && geo.FirstBlock(a.group) + a.bit != geo.FirstBlock(b.group) + b.bit
            && !m.used[a.group][a.bit] && Run(m, schedule).used[a.group][a.bit]
  {
    hide Join, Hi, Lo;
    var m' := Run(m, schedule);
    RunKeepsAccount(m.used, m, schedule);
    var a, b := m'.threads[i], m'.threads[j];
    JoinDigits(geo.perGroup, a.group, a.bit, a.group + 1);
    JoinDigits(geo.perGroup, b.group, b.bit, b.group + 1);
    JoinShift(geo.perGroup, a.group, geo.firstData, a.bit);
    JoinShift(geo.perGroup, b.group, geo.firstData, b.bit);
  }

  /** Turns a thread still needs in the worst case. */
  function Left(m: Machine, t: Thread): nat
    requires ValidThread(m, t)
  {
    if t.Scanning? then |m.used[t.group]| - t.at else 0
  }

  /** A thread finishes within as many of its own turns as there are bits from its
      place to the end of the group, whatever the others do. */
  lemma {:induction false} EachThreadFinishes(m: Machine, schedule: seq<nat>, t: nat)
    requires Valid(m) && t < |m.threads| && Schedulable(|m.threads|, schedule)
    requires Left(m, m.threads[t]) <= Turns(schedule, t)
    ensures !Run(m, schedule).threads[t].Scanning?
    decreases |schedule|
  {
    if schedule != [] {
      EachThreadFinishes(Step(m, schedule[0]), schedule[1..], t);
    }
  }

  /** A thread that runs alone ends with the least clear bit at or after its goal, or
      fails, with the bitmaps unchanged, exactly when there is none. */
  lemma {:induction false} RunAlone(m: Machine, t: nat, n: nat)
    requires Valid(m) && t < |m.threads| && m.threads[t].Scanning?
    requires Left(m, m.threads[t]) <= n
    ensures var th := m.threads[t];
            var first := FirstZero(m.used[th.group], th.at);
            var m' := Run(m, seq(n, _ => t));
            && m'.used == MarkUsed(m.used, th.group, first)
            && m'.threads[t] == (if first < 0 then Failed(th.group, th.goal) else Done(th.group, th.goal, first))
    decreases n
  {
    var turns := seq(n, _ => t);
    var m1 := Step(m, t);
    assert turns[1..] == seq(n - 1, _ => t);
    if m1.threads[t].Scanning? {
      RunAlone(m1, t, n - 1);
    } else {
      RunIdle(m1, t, n - 1);
    }
  }

  lemma {:induction false} RunIdle(m: Machine, t: nat, n: nat)
    requires Valid(m) && t < |m.threads| && !m.threads[t].Scanning?
    ensures Run(m, seq(n, _ => t)) == m
    decreases n
  {
    if n > 0 {
      assert seq(n, _ => t)[1..] == seq(n - 1, _ => t);
      RunIdle(m, t, n - 1);
    }
  }
}
