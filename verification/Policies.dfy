/** Scheduling policies and the predicates that decide which task a thread may take (pfunc/predicate.hpp). */
module Policies {

  datatype Policy = Fifo | Lifo | Cilk | Prio

  /** What `shallow_copy` copies between tasks: the attribute fields that matter here, group, size and rank. */
  datatype Descriptor = Descriptor(priority: int, level: nat, group: nat, size: nat, rank: nat)

  /** Where a thread asks for a task: at its main loop, in a wait, or in a group barrier, on top of `previous`. */
  datatype Point = Regular | Waiting(previous: Descriptor) | Grouped(previous: Descriptor)

  /** The predicate pair of a policy; `own_pred` and `steal_pred` agree for every policy. */
  predicate Accepts(policy: Policy, lt: (int, int) -> bool, point: Point, candidate: Descriptor) {
    match point
    case Regular => true
    case Waiting(p) =>
      (match policy
       case Fifo => true
       case Lifo => true
       case Cilk => p.level <= candidate.level
       case Prio => lt(p.priority, candidate.priority))
    case Grouped(p) =>
      && p.group != candidate.group
      && (match policy
          case Fifo => true
          case Lifo => true
          case Cilk => p.level <= candidate.level
          case Prio => lt(p.priority, candidate.priority))
  }

  /** What the priority comparator has to be: a strict order whose incomparability is transitive. */
  ghost predicate StrictWeakOrder(lt: (int, int) -> bool) {
    && (forall x :: !lt(x, x))
    && (forall x, y, z :: lt(x, y) && lt(y, z) ==> lt(x, z))
    && (forall x, y, z {:trigger lt(x, z), lt(y, z)} :: lt(x, z) ==> lt(x, y) || lt(y, z))
  }

  function Rank(key: int -> int): (int, int) -> bool {
    (x: int, y: int) => key(x) < key(y)
  }

  /** Comparing priorities by a rank is such an order, also when many of them share one. */
  lemma RanksAreWeakOrders(key: int -> int)
    ensures StrictWeakOrder(Rank(key))
  {
  }
}
