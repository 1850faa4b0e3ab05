/**
 * A unit of work (`Task` in allocators/arrival/__init__.py). The source takes
 * its identity from a class-wide `itertools.count()`; here that counter is an
 * explicit object, `TaskCounter`.
 */
module Tasks {
  import opened Wrappers
  import opened Vectors

  /**
   * `user` is the user's row in the allocation matrix, `demands` one amount
   * per resource, `finishTime` is None until the task is admitted and `count`
   * is the identity that Python's `__eq__` and `__hash__` compare.
   */
  datatype Task = Task(user: nat, duration: real, demands: Vector, submitTime: real,
                       finishTime: Option<real>, count: nat)

  /** A task the simulator can hold: a row that exists, a demand per resource, none negative. */
  predicate WellFormed(t: Task, numUsers: nat, numResources: nat) {
    t.user < numUsers && |t.demands| == numResources && NonNegative(t.demands)
  }

  /** Identity comparison, Python's `Task.__eq__`. */
  predicate SameTask(a: Task, b: Task) {
    a.count == b.count
  }

  /** The identity source shared by every task. */
  class TaskCounter {
    var next: nat

    constructor ()
      ensures next == 0
    {
      next := 0;
    }

    /** `Task(user, duration, demands, submit_time)`: a fresh identity, no finish time yet. */
    method NewTask(user: nat, duration: real, demands: Vector, submitTime: real) returns (t: Task)
      modifies this
      ensures t == Task(user, duration, demands, submitTime, None, old(next))
      ensures next == old(next) + 1
    {
      t := Task(user, duration, demands, submitTime, None, next);
      next := next + 1;
    }
  }

  /** Two tasks made one after the other never share an identity. */
  method NewTasksDiffer(c: TaskCounter, user: nat, duration: real, demands: Vector, submitTime: real)
    returns (a: Task, b: Task)
    modifies c
    ensures !SameTask(a, b) && a.count < b.count
  {
    a := c.NewTask(user, duration, demands, submitTime);
    b := c.NewTask(user, duration, demands, submitTime);
  }
}
