/**
 * The park/wake gate of an expansion thread (class waiter). Its two flags
 * change only under the gate's mutex; each critical section is one method.
 * The blocking wait() is split at its condition-variable loop: BeginWait is
 * the part before the loop, EndWait the part after the loop has exited.
 */
module Gate {

  class Waiter {
    /** A thread is parked in wait(). */
    var waiting: bool
    /** The gate has been shut down; never cleared again. */
    var done: bool

    constructor ()
      ensures !waiting && !done
    {
      waiting, done := false, false;
    }

    /** done(): sets the terminal flag; calling it again changes nothing more. */
    method Done()
      modifies this
      ensures done && waiting == old(waiting)
    {
      done := true;
    }

    /**
     * wake(): with the lock acquired (`acquired`, false when try_to_lock
     * fails) and a thread parked, unparks it and answers true; otherwise
     * answers false and changes nothing.
     */
    method Wake(acquired: bool) returns (woken: bool)
      modifies this
      ensures woken == (acquired && old(waiting))
      ensures waiting == (old(waiting) && !woken)
      ensures done == old(done)
    {
      if !acquired || !waiting {
        return false;
      }
      waiting := false;
      woken := true;
    }

    /** wait(), up to its wait loop: the caller parks. */
    method BeginWait()
      modifies this
      ensures waiting && done == old(done)
    {
      waiting := true;
    }

    /**
     * wait(), after its wait loop: the loop exits once the thread has been
     * woken or the gate is done; the answer is whether the gate is done.
     */
    method EndWait() returns (isDone: bool)
      requires !waiting || done
      modifies this
      ensures isDone == old(done) && done == old(done) && !waiting
    {
      waiting := false;
      isDone := done;
    }
  }

  /**
   * After done(), a whole wait() returns true at once: its wait loop exits
   * without any other thread acting.
   */
  method WaitAfterDone(w: Waiter) returns (isDone: bool)
    requires w.done
    modifies w
    ensures isDone && w.done && !w.waiting
  {
    w.BeginWait();
    isDone := w.EndWait();
  }
}
