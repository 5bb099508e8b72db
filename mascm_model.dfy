/**
 * The multithreaded application source code model (MASCM) as the detectors read it:
 * operations, resources and mutexes as labelled values, the typed edge list, time
 * units of threads, and the forward/backward/symmetric relations.
 */
module Mascm {

  /** Mutex numbers start at 1: a Lock is created with number len(q) + 1. */
  type MutexNum = n: int | 1 <= n witness 1

  /** Threads are known by their position in the model's thread list. */
  type ThreadId = nat

  /** Operation `o<thread>,<index>`. */
  datatype Op = Op(thread: ThreadId, index: nat)

  /** Resource `r<num>` with its alias names; equality of Resource objects compares names only. */
  datatype Res = Res(num: nat, names: set<string>)

  /** Mutex `q<num>`. */
  datatype Mutex = Mutex(num: MutexNum)

  /** The five edge kinds of the model, each with the endpoint order the model prints. */
  datatype Edge =
    | Transition(from: Op, to: Op)   // (o, o)
    | Usage(op: Op, res: Res)        // (o, r)
    | Dependency(res: Res, op: Op)   // (r, o)
    | Locking(q: Mutex, op: Op)      // (q, o)
    | Unlocking(op: Op, q: Mutex)    // (o, q)

  /** A time unit lists the threads that run in it. */
  type TimeUnit = seq<ThreadId>

  /** A relation pairs two operations. */
  type Relation = (Op, Op)

  datatype Relations = Relations(forward: seq<Relation>, backward: seq<Relation>, symmetric: seq<Relation>)

  datatype Model = Model(timeUnits: seq<TimeUnit>, edges: seq<Edge>, relations: Relations)

  /** Resource.__eq__: two resources are equal when their name sets are. */
  predicate SameResource(a: Res, b: Res)
  {
    a.names == b.names
  }

  predicate IsMutexEdge(e: Edge)
  {
    e.Locking? || e.Unlocking?
  }

  predicate IsResourceEdge(e: Edge)
  {
    e.Usage? || e.Dependency?
  }

  /** The edge's first endpoint is an operation of thread t. */
  predicate FirstIsOpOf(e: Edge, t: ThreadId)
  {
    match e
    case Transition(a, _) => a.thread == t
    case Usage(o, _) => o.thread == t
    case Unlocking(o, _) => o.thread == t
    case _ => false
  }

  /** The edge's second endpoint is an operation of thread t. */
  predicate SecondIsOpOf(e: Edge, t: ThreadId)
  {
    match e
    case Transition(_, b) => b.thread == t
    case Dependency(_, o) => o.thread == t
    case Locking(_, o) => o.thread == t
    case _ => false
  }

  /** Some endpoint of the edge is an operation of thread t. */
  predicate TouchesThread(e: Edge, t: ThreadId)
  {
    FirstIsOpOf(e, t) || SecondIsOpOf(e, t)
  }

  /** The operation is an endpoint of the edge. */
  predicate Mentions(e: Edge, o: Op)
  {
    match e
    case Transition(a, b) => a == o || b == o
    case Usage(p, _) => p == o
    case Dependency(_, p) => p == o
    case Locking(_, p) => p == o
    case Unlocking(p, _) => p == o
  }

  /** The time units that run more than one thread, the only ones the detectors inspect. */
  function MultiThreadUnits(units: seq<TimeUnit>): (r: seq<TimeUnit>)
    ensures forall i :: 0 <= i < |r| ==> |r[i]| > 1 && r[i] in units
    ensures forall i :: 0 <= i < |units| && |units[i]| > 1 ==> units[i] in r
    ensures r == [] <==> forall i :: 0 <= i < |units| ==> |units[i]| <= 1
  {
    if units == [] then []
    else (if |units[0]| > 1 then [units[0]] else []) + MultiThreadUnits(units[1..])
  }
}
