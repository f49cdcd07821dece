/** Waiting until no task runs (apple/shared/Concurrency.swift, lines 7-95). */
module PendingTasks {

  type Waiter = nat

  class PendingTasks {
    var count: nat
    var waiting: set<Waiter>
    ghost var asked: set<Waiter>
    ghost var resumed: set<Waiter>

    /** A waiter that asked waits or was resumed, not both; nobody waits while no task
        runs. */
    ghost predicate Valid()
      reads this
    {
      && (count == 0 ==> waiting == {})
      && asked == waiting + resumed
      && waiting !! resumed
    }

    constructor ()
      ensures Valid() && count == 0 && asked == {}
    {
      count, waiting, asked, resumed := 0, {}, {}, {};
    }

    method Start(tasks: nat)
      requires Valid()
      modifies this
      ensures Valid() && count == old(count) + tasks
      ensures waiting == old(waiting) && asked == old(asked) && resumed == old(resumed)
    {
      count := count + tasks;
    }

    /** Completing more tasks than run counts as completing all. Exactly when the
        count reaches zero, all waiters are resumed. */
    method Complete(tasks: nat)
      requires Valid()
      modifies this
      ensures Valid() && asked == old(asked)
      ensures count == if tasks > old(count) then 0 else old(count) - tasks
      ensures resumed == if count == 0 then old(asked) else old(resumed)
    {
      if tasks > count {
        count := 0;
      } else {
        count := count - tasks;
      }
      if count == 0 {
        var pending := waiting;
        waiting := {};
        resumed := resumed + pending;
      }
    }

    /** Returns at once if no task runs. */
    method WaitForAll(w: Waiter) returns (immediate: bool)
      requires Valid() && w !in asked
      modifies this
      ensures Valid() && count == old(count) && asked == old(asked) + {w}
      ensures immediate <==> count == 0
      ensures resumed == if immediate then old(resumed) + {w} else old(resumed)
    {
      asked := asked + {w};
      if count == 0 {
        resumed := resumed + {w};
        return true;
      }
      waiting := waiting + {w};
      return false;
    }
  }
}
