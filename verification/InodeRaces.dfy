/** Any number of threads taking inodes at once. A thread looks for a clear bit in one step
    and sets it in another, so others may set it in between; a lost race moves the thread
    on. A schedule picks which thread steps next. */
module InodeRaces {
  import opened Bits
  import opened BlockAllocator
  import opened InodeAllocator
  import opened Schedules

  /** `round` counts the groups the thread has been in. */
  datatype Thread =
    | Looking(group: nat, from: nat, round: nat)
    | Trying(group: nat, bit: nat, round: nat)
    | Got(group: nat, bit: nat)
    | NoSpace

  datatype Machine = Machine(used: seq<seq<bool>>, threads: seq<Thread>)

  predicate ValidThread(v: Volume, t: Thread) {
    match t
    case Looking(g, from, _) => g < v.groups && from < v.perGroup
    case Trying(g, b, _) => g < v.groups && b < v.perGroup
    case Got(g, b) => g < v.groups && b < v.perGroup
    case NoSpace => true
  }

  predicate Valid(v: Volume, m: Machine) {
    && v.Valid() && |m.used| == v.groups
    && (forall g :: 0 <= g < v.groups ==> |m.used[g]| == v.perGroup)
    && (forall i :: 0 <= i < |m.threads| ==> ValidThread(v, m.threads[i]))
  }

  /** The thread goes on to another group, as long as it has rounds left. */
  function Onward(v: Volume, g: nat, round: nat): Thread {
    if round + 1 >= v.groups then NoSpace else Looking(g, 0, round + 1)
  }

  /** After a lost race for the last bit the test for the end is the right way round. */
  function RightWrap(groups: nat, g: nat): nat {
    if groups <= g + 1 then 0 else g + 1
  }

  function StepThread(v: Volume, used: seq<seq<bool>>, t: Thread): Thread
    requires v.Valid() && |used| == v.groups && ValidThread(v, t)
    requires forall g :: 0 <= g < v.groups ==> |used[g]| == v.perGroup
  {
    match t
    case Looking(g, from, round) =>
      var b := FirstZero(used[g], from);
      if b < 0 then Onward(v, Wrap(v.groups, g), round) else Trying(g, b, round)
    case Trying(g, b, round) =>
      if !used[g][b] then Got(g, b)
      else if v.perGroup <= b + 1 then Onward(v, RightWrap(v.groups, g), round)
      else Looking(g, b + 1, round)
    case _ => t
  }

  /** The thread's next step sets a bit. */
  predicate Takes(v: Volume, m: Machine, t: nat)
    requires Valid(v, m) && t < |m.threads|
  {
    m.threads[t].Trying? && !m.used[m.threads[t].group][m.threads[t].bit]
  }

  function Step(v: Volume, m: Machine, t: nat): (m': Machine)
    requires Valid(v, m) && t < |m.threads|
    ensures Valid(v, m') && |m'.threads| == |m.threads|
  {
    var th := m.threads[t];
    var used := if Takes(v, m, t) then Mark(m.used, th.group, th.bit) else m.used;
    Machine(used, m.threads[t := StepThread(v, m.used, th)])
  }

  predicate Has(t: Thread, g: nat, b: nat) {
    t == Got(g, b)
  }

  predicate Taken(m: Machine, g: nat, b: nat) {
    exists i :: 0 <= i < |m.threads| && Has(m.threads[i], g, b)
  }

  /** A bit is set exactly if it was set at the start or a thread has got it, no thread got
      a bit set at the start, and no two threads got one bit. */
  ghost predicate Accounted(v: Volume, start: seq<seq<bool>>, m: Machine) {
    && Valid(v, m) && |start| == v.groups
    && (forall g :: 0 <= g < v.groups ==> |start[g]| == v.perGroup)
    && (forall g, b :: 0 <= g < v.groups && 0 <= b < v.perGroup ==> (m.used[g][b] <==> start[g][b] || Taken(m, g, b)))
    && (forall i :: 0 <= i < |m.threads| && m.threads[i].Got? ==> !start[m.threads[i].group][m.threads[i].bit])
    && (forall i, j :: 0 <= i < j < |m.threads| && m.threads[i].Got? ==> m.threads[i] != m.threads[j])
  }

  /** A step that sets no bit gives no thread one. */
  lemma LookKeepsAccount(v: Volume, start: seq<seq<bool>>, m: Machine, t: nat)
    requires Accounted(v, start, m) && t < |m.threads| && !Takes(v, m, t) && !m.threads[t].Got?
    ensures Accounted(v, start, Step(v, m, t))
  {
    hide FirstZero;
    var m' := Step(v, m, t);
    assert !m'.threads[t].Got?;
    forall g, b ensures Taken(m', g, b) <==> Taken(m, g, b) {
      if Taken(m, g, b) {
        var i :| 0 <= i < |m.threads| && Has(m.threads[i], g, b);
        assert Has(m'.threads[i], g, b);
      }
    }
  }

  /** A step that sets a bit gives it to the thread, and to no other. */
  lemma TakeKeepsAccount(v: Volume, start: seq<seq<bool>>, m: Machine, t: nat)
    requires Accounted(v, start, m) && t < |m.threads| && Takes(v, m, t)
    ensures Accounted(v, start, Step(v, m, t))
  {
    hide FirstZero;
    var m' := Step(v, m, t);
    var g, bit := m.threads[t].group, m.threads[t].bit;
    assert !Taken(m, g, bit);
    forall h, b ensures Taken(m', h, b) <==> Taken(m, h, b) || (h == g && b == bit) {
      assert Has(m'.threads[t], g, bit);
      if Taken(m, h, b) {
        var i :| 0 <= i < |m.threads| && Has(m.threads[i], h, b);
        assert Has(m'.threads[i], h, b);
      }
    }
    forall i | 0 <= i < |m.threads| ensures m.threads[i] != Got(g, bit) {
      assert !Has(m.threads[i], g, bit);
    }
  }

  /** A step of any thread keeps the account. */
  lemma StepKeepsAccount(v: Volume, start: seq<seq<bool>>, m: Machine, t: nat)
    requires Accounted(v, start, m) && t < |m.threads|
    ensures Accounted(v, start, Step(v, m, t))
  {
    if m.threads[t].Got? {
      assert Step(v, m, t) == m;
    } else if Takes(v, m, t) {
      TakeKeepsAccount(v, start, m, t);
    } else {
      LookKeepsAccount(v, start, m, t);
    }
  }

  function Run(v: Volume, m: Machine, schedule: seq<nat>): (m': Machine)
    requires Valid(v, m) && Schedulable(|m.threads|, schedule)
    ensures Valid(v, m') && |m'.threads| == |m.threads|
    decreases |schedule|
  {
    if schedule == [] then m else Run(v, Step(v, m, schedule[0]), schedule[1..])
  }

  /** Any schedule keeps the account. */
  lemma {:induction false} RunKeepsAccount(v: Volume, start: seq<seq<bool>>, m: Machine, schedule: seq<nat>)
    requires Accounted(v, start, m) && Schedulable(|m.threads|, schedule)
    ensures Accounted(v, start, Run(v, m, schedule))
    decreases |schedule|
  {
    hide Step;
    if schedule != [] {
      StepKeepsAccount(v, start, m, schedule[0]);
      RunKeepsAccount(v, start, Step(v, m, schedule[0]), schedule[1..]);
    }
  }

  /** No thread has got anything yet. */
  predicate AtStart(v: Volume, m: Machine) {
    Valid(v, m) && forall i :: 0 <= i < |m.threads| ==> !m.threads[i].Got?
  }

  /** Under every schedule no two threads end with one inode number, and every number handed
      out was free at the start. */
  lemma NoInodeTakenTwice(v: Volume, m: Machine, schedule: seq<nat>, i: nat, j: nat)
    requires AtStart(v, m) && Schedulable(|m.threads|, schedule) && i < |m.threads| && j < |m.threads| && i != j
    requires Run(v, m, schedule).threads[i].Got? && Run(v, m, schedule).threads[j].Got?
    ensures var m' := Run(v, m, schedule);
            var a, b := m'.threads[i], m'.threads[j];
            && InoOf(v, a.group, a.bit) != InoOf(v, b.group, b.bit)
            && !m.used[a.group][a.bit] && m'.used[a.group][a.bit]
  {
    hide Join, Hi, Lo, Step;
    var m' := Run(v, m, schedule);
    RunKeepsAccount(v, m.used, m, schedule);
    var a, b := m'.threads[i], m'.threads[j];
    JoinDigits(v.perGroup, a.group, a.bit, v.groups);
    JoinDigits(v.perGroup, b.group, b.bit, v.groups);
    assert Has(a, a.group, a.bit);
  }

  // ----- termination and a thread alone

  /** An upper bound on the steps a thread still needs. */
  function Left(v: Volume, t: Thread): nat
    requires ValidThread(v, t)
  {
    match t
    case Looking(_, from, round) => Rest(v, round) + 2 * (v.perGroup - from)
    case Trying(_, b, round) => Rest(v, round) + 2 * (v.perGroup - b) - 1
    case _ => 0
  }

  /** The steps all later rounds can take. */
  function Rest(v: Volume, round: nat): nat
    decreases v.groups - round
  {
    if round + 1 >= v.groups then 0 else 2 * v.perGroup + Rest(v, round + 1)
  }

  predicate Finished(t: Thread) {
    t.Got? || t.NoSpace?
  }

  /** Every step of a thread that has not finished brings it nearer to its end. */
  lemma StepNearer(v: Volume, m: Machine, t: nat)
    requires Valid(v, m) && t < |m.threads|
    ensures var a, b := m.threads[t], Step(v, m, t).threads[t];
            Left(v, b) <= Left(v, a) && (!Finished(a) ==> Left(v, b) < Left(v, a))
  {
  }

  /** A thread ends within a number of its own turns that depends on nothing but the sizes
      of the bitmaps, whatever the others do. */
  lemma {:induction false} EachThreadFinishes(v: Volume, m: Machine, schedule: seq<nat>, t: nat)
    requires Valid(v, m) && t < |m.threads| && Schedulable(|m.threads|, schedule)
    requires Left(v, m.threads[t]) <= Turns(schedule, t)
    ensures Finished(Run(v, m, schedule).threads[t])
    decreases |schedule|
  {
    hide StepThread;
    if schedule == [] {
      LeftZero(v, m.threads[t]);
    } else {
      StepNearer(v, m, t);
      if schedule[0] == t && Finished(m.threads[t]) {
        FinishedStays(v, m, t);
      }
      if Finished(m.threads[t]) {
        FinishedLeft(v, Step(v, m, schedule[0]).threads[t]);
      }
      EachThreadFinishes(v, Step(v, m, schedule[0]), schedule[1..], t);
    }
  }

  lemma LeftZero(v: Volume, t: Thread)
    requires ValidThread(v, t) && Left(v, t) == 0
    ensures Finished(t)
  {
  }

  lemma FinishedLeft(v: Volume, t: Thread)
    requires ValidThread(v, t) && Finished(t)
    ensures Left(v, t) == 0
  {
  }

  lemma FinishedStays(v: Volume, m: Machine, t: nat)
    requires Valid(v, m) && t < |m.threads| && Finished(m.threads[t])
    ensures Step(v, m, t).threads[t] == m.threads[t]
  {
  }

  // ----- no bit is passed over

  predicate FullGroup(m: Machine, g: nat) {
    g < |m.used| && forall b :: 0 <= b < |m.used[g]| ==> m.used[g][b]
  }

  /** The thread is in group g and every bit before its place there is set, or has got a bit of
      the group, or the group is full. */
  ghost predicate Thorough(m: Machine, th: Thread, g: nat) {
    || FullGroup(m, g)
    || (g < |m.used|
        && match th
           case Looking(h, from, _) => h == g && from <= |m.used[g]| && forall b :: 0 <= b < from ==> m.used[g][b]
           case Trying(h, bit, _) => h == g && bit <= |m.used[g]| && forall b :: 0 <= b < bit ==> m.used[g][b]
           case Got(h, _) => h == g
           case NoSpace => false)
  }

  lemma StepThorough(v: Volume, m: Machine, s: nat, t: nat, g: nat)
    requires Valid(v, m) && s < |m.threads| && t < |m.threads| && Thorough(m, m.threads[t], g)
    ensures Thorough(Step(v, m, s), Step(v, m, s).threads[t], g)
  {
    hide Left, Rest;
    var m' := Step(v, m, s);
    assert forall h: nat, b: nat :: h < v.groups && b < v.perGroup && m.used[h][b] ==> m'.used[h][b];
  }

  /** Under every schedule a thread leaves the group it starts in only when every bit of it is
      set; so one that ends without an inode leaves that group full. */
  lemma {:induction false} LeavesFull(v: Volume, m: Machine, schedule: seq<nat>, t: nat, g: nat)
    requires Valid(v, m) && t < |m.threads| && Schedulable(|m.threads|, schedule)
    requires Thorough(m, m.threads[t], g)
    ensures Thorough(Run(v, m, schedule), Run(v, m, schedule).threads[t], g)
    ensures Run(v, m, schedule).threads[t].NoSpace? ==> FullGroup(Run(v, m, schedule), g)
    decreases |schedule|
  {
    hide Step, FullGroup;
    if schedule != [] {
      StepThorough(v, m, schedule[0], t, g);
      LeavesFull(v, Step(v, m, schedule[0]), schedule[1..], t, g);
    }
  }

  /** Where a thread with rounds left goes on: from a group it finds no clear bit in, to group 0;
      after a lost race, to the next bit, and for the last bit to the next group, cyclically. */
  lemma MovesOn(v: Volume, m: Machine, t: nat)
    requires Valid(v, m) && t < |m.threads|
    ensures var th, th' := m.threads[t], Step(v, m, t).threads[t];
            && (th.Looking? && th.round + 1 < v.groups ==>
                  (forall b :: th.from <= b < v.perGroup ==> m.used[th.group][b]) ==>
                    th' == Looking(0, 0, th.round + 1))
            && (th.Trying? && m.used[th.group][th.bit] && th.bit + 1 < v.perGroup ==>
                  th' == Looking(th.group, th.bit + 1, th.round))
            && (th.Trying? && m.used[th.group][th.bit] && th.bit + 1 == v.perGroup && th.round + 1 < v.groups ==>
                  th' == Looking(if th.group + 1 == v.groups then 0 else th.group + 1, 0, th.round + 1))
  {
  }

  /** A thread that runs alone from the start of a group ends as the sequential search
      does: with the same bit, or with none. */
  lemma {:induction false} RunAlone(v: Volume, m: Machine, t: nat, n: nat)
    requires Valid(v, m) && t < |m.threads| && m.threads[t].Looking? && m.threads[t].from == 0
    requires m.threads[t].round < v.groups && Left(v, m.threads[t]) <= n
    ensures var th := m.threads[t];
            var p := Scan(v, m.used, {}, th.group, th.round);
            var m' := Run(v, m, seq(n, _ => t));
            && m'.used == (if p.Bit? then Mark(m.used, p.group, p.bit) else m.used)
            && m'.threads[t] == (if p.Bit? then Got(p.group, p.bit) else NoSpace)
    decreases n
  {
    hide Rest;
    var th := m.threads[t];
    var turns := seq(n, _ => t);
    var m1 := Step(v, m, t);
    assert turns[1..] == seq(n - 1, _ => t);
    StepNearer(v, m, t);
    if m1.threads[t].Looking? {
      RunAlone(v, m1, t, n - 1);
    } else if m1.threads[t].NoSpace? {
      RunIdle(v, m1, t, n - 1);
    } else {
      var m2 := Step(v, m1, t);
      assert turns[1..][1..] == seq(n - 2, _ => t);
      StepNearer(v, m1, t);
      RunIdle(v, m2, t, n - 2);
    }
  }

  lemma {:induction false} RunIdle(v: Volume, m: Machine, t: nat, n: nat)
    requires Valid(v, m) && t < |m.threads| && Finished(m.threads[t])
    ensures Run(v, m, seq(n, _ => t)) == m
    decreases n
  {
    if n > 0 {
      assert seq(n, _ => t)[1..] == seq(n - 1, _ => t);
      assert Step(v, m, t) == m;
      RunIdle(v, m, t, n - 1);
    }
  }
}
