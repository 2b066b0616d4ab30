/** Schedules: which of a number of threads takes each next turn. */
module Schedules {
  predicate Schedulable(threads: nat, schedule: seq<nat>) {
    forall k :: 0 <= k < |schedule| ==> schedule[k] < threads
  }

  /** The turns the schedule gives to thread t. */
  function Turns(schedule: seq<nat>, t: nat): nat {
    if schedule == [] then 0 else (if schedule[0] == t then 1 else 0) + Turns(schedule[1..], t)
  }
}
