/**
 * The priority-queue variant of the pizza factory
 * (implement_order_priority.py): every stage queue keeps urgent pizzas ahead
 * of normal ones, and every stage marks a queue's task done.
 *
 * Each worker or oven round is one atomic step: between asyncio suspension
 * points nothing else runs, and the check `empty()` / `locked()`, the `get()`
 * and the `acquire()` that follow it never suspend. A round is a `Get` from
 * a queue followed by the stage method for the pizza taken; the kitchen's
 * invariant holds between rounds.
 */
module OrderPriority {
  import opened PizzaCommon

  class Pizza {
    const pizzaId: int
    const priority: Priority
    var status: Status

    constructor (pizzaId: int, priority: Priority)
      ensures this.pizzaId == pizzaId && this.priority == priority
      ensures status == InFridge
    {
      this.pizzaId := pizzaId;
      this.priority := priority;
      status := InFridge;
    }
  }

  /** The pizzas of `ps` with priority `pr`, in their order in `ps`. */
  function OfPriority(ps: seq<Pizza>, pr: Priority): (r: seq<Pizza>)
    ensures |r| <= |ps|
    ensures forall i :: 0 <= i < |r| ==> r[i].priority == pr && r[i] in ps
    ensures forall i :: 0 <= i < |ps| && ps[i].priority == pr ==> ps[i] in r
  {
    if ps == [] then []
    else if ps[|ps| - 1].priority == pr then OfPriority(ps[..|ps| - 1], pr) + [ps[|ps| - 1]]
    else OfPriority(ps[..|ps| - 1], pr)
  }

  /** Every pizza of `ps` lands in exactly one of the two classes. */
  lemma {:induction false} PutsSortByPriority(ps: seq<Pizza>)
    ensures |OfPriority(ps, Urgent)| + |OfPriority(ps, Normal)| == |ps|
    ensures OfPriority(ps, Urgent) + OfPriority(ps, Normal) == [] <==> ps == []
    decreases |ps|
  {
    if ps != [] {
      PutsSortByPriority(ps[..|ps| - 1]);
    }
  }

  /** The pizza `p` if it has priority `pr`, else nothing. */
  function OwnClass(p: Pizza, pr: Priority): (r: seq<Pizza>)
    ensures r == OfPriority([p], pr)
  {
    assert [p][..0] == [];
    if p.priority == pr then [p] else []
  }

  /**
   * A list that held `l0` followed by the pizzas of class `pr` among the
   * first `i` of `ps`, and then received the next pizza if it has class
   * `pr`, holds `l0` followed by that class among the first `i + 1`.
   */
  lemma ClassGrows(l0: seq<Pizza>, l: seq<Pizza>, l': seq<Pizza>, ps: seq<Pizza>, i: nat, pr: Priority)
    requires i < |ps| && l == l0 + OfPriority(ps[..i], pr) && l' == l + OwnClass(ps[i], pr)
    ensures l' == l0 + OfPriority(ps[..i + 1], pr)
  {
    assert ps[..i + 1][..i] == ps[..i];
  }

  // ------------------------------------------------ what the queue operations do

  /**
   * `put(item)` turns the lists `urgent`, `normal` into `urgent'`, `normal'`:
   * the item joins the back of the list of its priority, the other list stays.
   */
  predicate Appended(urgent: seq<Pizza>, normal: seq<Pizza>, urgent': seq<Pizza>, normal': seq<Pizza>, item: Pizza)
  {
    if item.priority == Urgent
    then urgent' == urgent + [item] && normal' == normal
    else normal' == normal + [item] && urgent' == urgent
  }

  /**
   * `get()` turns the lists `urgent`, `normal` into `urgent'`, `normal'` and
   * returns `item`: the head of the urgent list, else the head of the normal one.
   */
  predicate Popped(urgent: seq<Pizza>, normal: seq<Pizza>, urgent': seq<Pizza>, normal': seq<Pizza>, item: Pizza)
  {
    if urgent != []
    then item == urgent[0] && urgent' == urgent[1..] && normal' == normal
    else normal != [] && item == normal[0] && urgent' == [] && normal' == normal[1..]
  }

  /** `put` counts one more unfinished task and clears the `finished` event. */
  predicate OneMore(count: int, count': int, finished': bool)
  {
    count' == count + 1 && !finished'
  }

  /** `task_done` counts one task fewer, with no lower bound, and sets the event when the count reaches zero. */
  predicate OneLess(count: int, finished: bool, count': int, finished': bool)
  {
    count' == count - 1 && finished' == (finished || count' == 0)
  }

  /**
   * After `put(item)` the item is served after every pizza already waiting
   * in its class: an urgent one before all normal pizzas, a normal one last.
   * A pizza not yet waiting does not make either list hold one twice.
   */
  lemma AppendedInOrder(urgent: seq<Pizza>, normal: seq<Pizza>, urgent': seq<Pizza>, normal': seq<Pizza>, item: Pizza)
    requires Appended(urgent, normal, urgent', normal', item)
    ensures urgent' + normal' == if item.priority == Urgent then urgent + [item] + normal else urgent + normal + [item]
    ensures Distinct(urgent) && Distinct(normal) && item !in urgent + normal ==> Distinct(urgent') && Distinct(normal')
  {
    if Distinct(urgent) && Distinct(normal) && item !in urgent + normal {
      if item.priority == Urgent {
        DistinctAppend(urgent, item);
      } else {
        DistinctAppend(normal, item);
      }
    }
  }

  /**
   * `get` serves in order: the first pizza of `urgent + normal` leaves and
   * the rest keep their order, so an urgent pizza is served exactly when one
   * waits; a queue without repetitions no longer holds the pizza served.
   */
  lemma PoppedInOrder(urgent: seq<Pizza>, normal: seq<Pizza>, urgent': seq<Pizza>, normal': seq<Pizza>, item: Pizza)
    requires Popped(urgent, normal, urgent', normal', item)
    requires forall i :: 0 <= i < |urgent| ==> urgent[i].priority == Urgent
    requires forall i :: 0 <= i < |normal| ==> normal[i].priority == Normal
    ensures item == (urgent + normal)[0] && urgent' + normal' == (urgent + normal)[1..]
    ensures item.priority == Urgent <==> urgent != []
    ensures Distinct(urgent) && Distinct(normal) ==> Distinct(urgent') && Distinct(normal') && item !in urgent' + normal'
  {
    if urgent != [] {
      assert (urgent + normal)[1..] == urgent[1..] + normal;
      if Distinct(urgent) && Distinct(normal) {
        DistinctTail(urgent);
        assert forall j :: 0 <= j < |normal| ==> normal[j] != item;
      }
    } else {
      assert urgent + normal == normal;
      if Distinct(urgent) && Distinct(normal) {
        DistinctTail(normal);
      }
    }
  }

  /** `put` keeps every pizza that was waiting and adds the item. */
  lemma AppendedKeeps(urgent: seq<Pizza>, normal: seq<Pizza>, urgent': seq<Pizza>, normal': seq<Pizza>, item: Pizza)
    requires Appended(urgent, normal, urgent', normal', item)
    ensures item in urgent' + normal'
    ensures forall x :: x in urgent + normal ==> x in urgent' + normal'
  {
  }

  /** `get` keeps every pizza that was waiting except the one it hands out. */
  lemma PoppedKeeps(urgent: seq<Pizza>, normal: seq<Pizza>, urgent': seq<Pizza>, normal': seq<Pizza>, item: Pizza)
    requires Popped(urgent, normal, urgent', normal', item)
    ensures forall x :: x in urgent + normal && x != item ==> x in urgent' + normal'
  {
    if urgent != [] {
      assert urgent == [item] + urgent';
    } else {
      assert normal == [item] + normal';
    }
  }

  /**
   * Two FIFO lists, urgent before normal, with the unfinished-task counter and
   * the `finished` event of `asyncio.Queue`'s completion protocol.
   */
  class PriorityQueue {
    var urgent: seq<Pizza>
    var normal: seq<Pizza>
    var unfinishedTasks: int
    var finished: bool

    /** Each list holds pizzas of its own priority; the event is set only once nothing is unfinished. */
    ghost predicate Valid()
      reads this
    {
      (finished ==> unfinishedTasks <= 0)
      && (forall i :: 0 <= i < |urgent| ==> urgent[i].priority == Urgent)
      && (forall i :: 0 <= i < |normal| ==> normal[i].priority == Normal)
    }

    /** No pizza waits twice (the two lists cannot share one: their priorities differ). */
    ghost predicate NoRepeats()
      reads this
    {
      Distinct(urgent) && Distinct(normal)
    }

    /** Nothing waits and nothing is unfinished, as in a new queue. */
    ghost predicate Idle()
      reads this
    {
      urgent == [] && normal == [] && unfinishedTasks == 0 && finished
    }

    /** The pizzas in the order `get` hands them out. */
    ghost function Contents(): seq<Pizza>
      reads this
    {
      urgent + normal
    }

    /** Every pizza put is still waiting or counted done, and `join` returns exactly when none waits. */
    ghost predicate Tracks()
      reads this
    {
      unfinishedTasks == |urgent| + |normal| && (finished <==> unfinishedTasks == 0)
    }

    constructor ()
      ensures Valid() && NoRepeats() && Idle()
    {
      urgent := [];
      normal := [];
      unfinishedTasks := 0;
      finished := true;
    }

    method Put(item: Pizza)
      requires Valid()
      modifies this
      ensures Valid() && Appended(old(urgent), old(normal), urgent, normal, item)
      ensures OneMore(old(unfinishedTasks), unfinishedTasks, finished)
    {
      if item.priority == Urgent {
        urgent := urgent + [item];
      } else {
        normal := normal + [item];
      }
      unfinishedTasks := unfinishedTasks + 1;
      finished := false;
    }

    /** `get()`: `None` stands for `QueueEmpty`. The counter and the event do not change. */
    method Get() returns (r: Option<Pizza>)
      requires Valid()
      modifies this
      ensures Valid()
      ensures r.None? <==> old(Contents()) == []
      ensures r.Some? ==> Popped(old(urgent), old(normal), urgent, normal, r.value)
      ensures r.None? ==> urgent == old(urgent) && normal == old(normal)
      ensures unfinishedTasks == old(unfinishedTasks) && finished == old(finished)
    {
      if urgent != [] {
        r := Some(urgent[0]);
        urgent := urgent[1..];
      } else if normal != [] {
        r := Some(normal[0]);
        normal := normal[1..];
      } else {
        r := None;
      }
    }

    method TaskDone()
      requires Valid()
      modifies this
      ensures Valid() && urgent == old(urgent) && normal == old(normal)
      ensures OneLess(old(unfinishedTasks), old(finished), unfinishedTasks, finished)
    {
      unfinishedTasks := unfinishedTasks - 1;
      if unfinishedTasks == 0 {
        finished := true;
      }
    }

    /** `join()` returns at once exactly when the `finished` event is set; otherwise it waits. */
    function Join(): (returned: bool)
      reads this
      requires Valid()
      ensures returned ==> unfinishedTasks <= 0
    {
      finished
    }

    /** `empty()`: neither list holds a pizza. */
    function Empty(): (r: bool)
      reads this
      ensures r <==> Contents() == []
    {
      urgent == [] && normal == []
    }
  }

  /** The module-level queues and the ovens' semaphore that all workers and ovens share. */
  class Kitchen {
    const fridgeQueue: PriorityQueue
    const makeQueue: PriorityQueue
    const putIntoOvenQueue: PriorityQueue
    const takeOutOfOvenQueue: PriorityQueue
    const packQueue: PriorityQueue
    const deliverQueue: PriorityQueue
    const ovenQueue: PriorityQueue
    const ovensSemaphore: Semaphore
    const ovensAmount: nat

    /** Every pizza ever put into the fridge queue. */
    ghost var pizzas: set<Pizza>
    /** How many pizzas have been taken out of an oven so far. */
    ghost var outOfOven: nat
    /** How many pizzas have been delivered so far. */
    ghost var delivered: nat

    /** The queue where pizzas of status `s` wait. */
    function QueueFor(s: Status): PriorityQueue
      requires s != Delivered
    {
      match s
      case InFridge => fridgeQueue
      case ToMake => makeQueue
      case Made => putIntoOvenQueue
      case InOven => ovenQueue
      case Baked => takeOutOfOvenQueue
      case ToPack => packQueue
      case ToDeliver => deliverQueue
    }

    /** The seven queues are seven different objects. */
    ghost predicate Separate()
    {
      fridgeQueue !in {makeQueue, putIntoOvenQueue, ovenQueue, takeOutOfOvenQueue, packQueue, deliverQueue}
      && makeQueue !in {putIntoOvenQueue, ovenQueue, takeOutOfOvenQueue, packQueue, deliverQueue}
      && putIntoOvenQueue !in {ovenQueue, takeOutOfOvenQueue, packQueue, deliverQueue}
      && ovenQueue !in {takeOutOfOvenQueue, packQueue, deliverQueue}
      && takeOutOfOvenQueue !in {packQueue, deliverQueue}
      && packQueue != deliverQueue
    }

    /** Queue `q` of stage `s` holds known pizzas of status `s`, none of them twice. */
    ghost predicate Line(q: PriorityQueue, s: Status)
      reads this, q, pizzas
    {
      q.NoRepeats()
      && (forall i :: 0 <= i < |q.urgent| ==> q.urgent[i] in pizzas && q.urgent[i].status == s)
      && (forall i :: 0 <= i < |q.normal| ==> q.normal[i] in pizzas && q.normal[i].status == s)
    }

    ghost predicate Shape()
      reads this, fridgeQueue, makeQueue, putIntoOvenQueue, ovenQueue, takeOutOfOvenQueue, packQueue, deliverQueue
    {
      Separate()
      && fridgeQueue.Valid() && makeQueue.Valid() && putIntoOvenQueue.Valid() && ovenQueue.Valid()
      && takeOutOfOvenQueue.Valid() && packQueue.Valid() && deliverQueue.Valid()
    }

    ghost predicate Lines()
      reads this, fridgeQueue, makeQueue, putIntoOvenQueue, ovenQueue, takeOutOfOvenQueue, packQueue, deliverQueue, pizzas
    {
      Line(fridgeQueue, InFridge) && Line(makeQueue, ToMake) && Line(putIntoOvenQueue, Made)
      && Line(ovenQueue, InOven) && Line(takeOutOfOvenQueue, Baked) && Line(packQueue, ToPack)
      && Line(deliverQueue, ToDeliver)
    }

    ghost predicate Tallies()
      reads this, fridgeQueue, makeQueue, putIntoOvenQueue, ovenQueue, takeOutOfOvenQueue, packQueue, deliverQueue, ovensSemaphore
    {
      fridgeQueue.Tracks() && makeQueue.Tracks() && putIntoOvenQueue.Tracks()
      && packQueue.Tracks() && deliverQueue.Tracks()
      // take_out_of_oven marks the oven queue done instead of its own queue
      && ovenQueue.unfinishedTasks == |ovenQueue.urgent| + |ovenQueue.normal| - outOfOven
      && takeOutOfOvenQueue.unfinishedTasks == |takeOutOfOvenQueue.urgent| + |takeOutOfOvenQueue.normal| + outOfOven
      // every oven is either free or holds a pizza between put-in and take-out
      && ovensSemaphore.value + |ovenQueue.urgent| + |ovenQueue.normal|
         + |takeOutOfOvenQueue.urgent| + |takeOutOfOvenQueue.normal| == ovensAmount
      // every pizza is waiting for a stage or past the ovens
      && outOfOven == |packQueue.urgent| + |packQueue.normal| + |deliverQueue.urgent| + |deliverQueue.normal| + delivered
      && |pizzas| == |fridgeQueue.urgent| + |fridgeQueue.normal| + |makeQueue.urgent| + |makeQueue.normal|
                     + |putIntoOvenQueue.urgent| + |putIntoOvenQueue.normal| + |ovenQueue.urgent| + |ovenQueue.normal|
                     + |takeOutOfOvenQueue.urgent| + |takeOutOfOvenQueue.normal| + outOfOven
    }

    /** Every pizza ordered waits in the queue of its status (and so, by `Lines`, in no other), unless it was delivered. */
    ghost predicate Placed()
      reads this, fridgeQueue, makeQueue, putIntoOvenQueue, ovenQueue, takeOutOfOvenQueue, packQueue, deliverQueue, pizzas
    {
      forall p | p in pizzas :: p.status == Delivered || p in QueueFor(p.status).Contents()
    }

    /**
     * The kitchen invariant: the four parts above together. The `let` keeps
     * the verifier from unfolding all four parts wherever `Valid()` is
     * merely passed along; the proofs of the longer rounds need that to stay
     * within their resource limit.
     */
    ghost predicate Valid()
      reads this, fridgeQueue, makeQueue, putIntoOvenQueue, ovenQueue, takeOutOfOvenQueue, packQueue, deliverQueue, ovensSemaphore, pizzas
    {
      var ok := Shape() && Lines() && Tallies() && Placed(); ok
    }

    /** The stages whose queue is not empty. */
    ghost function Waiting(): set<Status>
      reads this, fridgeQueue, makeQueue, putIntoOvenQueue, ovenQueue, takeOutOfOvenQueue, packQueue, deliverQueue
    {
      set s | s in QueuedStatuses && QueueFor(s).Contents() != []
    }

    /** The stages whose queues a round serving stage `s` changes: its own, the next one's and, for take-out, the oven queue it marks done. */
    function Touched(s: Status): set<Status>
      requires s != Delivered
    {
      {s, Next(s)} + if s == Baked then {InOven} else {}
    }

    /**
     * One round serving stage `s`, as `do_the_job` or the oven's loop runs it:
     * `pizza`, the first pizza `get` hands out from that stage's queue, moves
     * one stage on and joins the next stage's queue as `put` leaves it (no
     * queue after delivery). The queue served is marked done (take-out marks
     * the oven queue instead), put-in takes a permit and take-out gives it
     * back; no other queue and no other pizza changes.
     */
    twostate predicate Served(new s: Status, pizza: Pizza)
      requires s != Delivered
      reads this, fridgeQueue, makeQueue, putIntoOvenQueue, ovenQueue, takeOutOfOvenQueue, packQueue, deliverQueue, ovensSemaphore, pizzas
    {
      pizzas == old(pizzas) && pizza in pizzas && unchanged(pizzas - {pizza})
      && old(pizza.status) == s && pizza.status == Next(s)
      && Popped(old(QueueFor(s).urgent), old(QueueFor(s).normal), QueueFor(s).urgent, QueueFor(s).normal, pizza)
      && (if s == Baked
          then QueueFor(s).unfinishedTasks == old(QueueFor(s).unfinishedTasks) && QueueFor(s).finished == old(QueueFor(s).finished)
               && ovenQueue.urgent == old(ovenQueue.urgent) && ovenQueue.normal == old(ovenQueue.normal)
               && OneLess(old(ovenQueue.unfinishedTasks), old(ovenQueue.finished), ovenQueue.unfinishedTasks, ovenQueue.finished)
          else OneLess(old(QueueFor(s).unfinishedTasks), old(QueueFor(s).finished), QueueFor(s).unfinishedTasks, QueueFor(s).finished))
      && (s != ToDeliver ==>
            Appended(old(QueueFor(Next(s)).urgent), old(QueueFor(Next(s)).normal), QueueFor(Next(s)).urgent, QueueFor(Next(s)).normal, pizza)
            && OneMore(old(QueueFor(Next(s)).unfinishedTasks), QueueFor(Next(s)).unfinishedTasks, QueueFor(Next(s)).finished))
      && (InFridge !in Touched(s) ==> unchanged(fridgeQueue))
      && (ToMake !in Touched(s) ==> unchanged(makeQueue))
      && (Made !in Touched(s) ==> unchanged(putIntoOvenQueue))
      && (InOven !in Touched(s) ==> unchanged(ovenQueue))
      && (Baked !in Touched(s) ==> unchanged(takeOutOfOvenQueue))
      && (ToPack !in Touched(s) ==> unchanged(packQueue))
      && (ToDeliver !in Touched(s) ==> unchanged(deliverQueue))
      && ovensSemaphore.value == old(ovensSemaphore.value) + (if s == Made then -1 else if s == Baked then 1 else 0)
      && outOfOven == old(outOfOven) + (if s == Baked then 1 else 0)
      && delivered == old(delivered) + (if s == ToDeliver then 1 else 0)
    }

    /** The module-level queues and `Semaphore(ovens_amount)` of `main`. */
    constructor (ovensAmount: nat)
      ensures Valid() && pizzas == {} && outOfOven == 0 && delivered == 0
      ensures this.ovensAmount == ovensAmount && ovensSemaphore.value == ovensAmount
      ensures fridgeQueue.Idle() && makeQueue.Idle() && putIntoOvenQueue.Idle() && ovenQueue.Idle()
      ensures takeOutOfOvenQueue.Idle() && packQueue.Idle() && deliverQueue.Idle()
      ensures fresh(fridgeQueue) && fresh(makeQueue) && fresh(putIntoOvenQueue) && fresh(ovenQueue)
      ensures fresh(takeOutOfOvenQueue) && fresh(packQueue) && fresh(deliverQueue) && fresh(ovensSemaphore)
    {
      fridgeQueue := new PriorityQueue();
      makeQueue := new PriorityQueue();
      putIntoOvenQueue := new PriorityQueue();
      takeOutOfOvenQueue := new PriorityQueue();
      packQueue := new PriorityQueue();
      deliverQueue := new PriorityQueue();
      ovenQueue := new PriorityQueue();
      ovensSemaphore := new Semaphore(ovensAmount);
      this.ovensAmount := ovensAmount;
      pizzas := {};
      outOfOven := 0;
      delivered := 0;
      new;
      Opened();
    }

    lemma Opened()
      requires Separate() && pizzas == {} && outOfOven == 0 && delivered == 0
      requires ovensSemaphore.value == ovensAmount
      requires fridgeQueue.Idle() && makeQueue.Idle() && putIntoOvenQueue.Idle() && ovenQueue.Idle()
      requires takeOutOfOvenQueue.Idle() && packQueue.Idle() && deliverQueue.Idle()
      ensures Valid()
    {
    }

    // ------------------------------------------------------------ ordering

    /** `fridge_queue.put(pizza)` for a new pizza in `main`: it waits in the fridge queue behind the pizzas of its class. */
    method Order(pizza: Pizza)
      requires Valid() && pizza !in pizzas && pizza.status == InFridge
      modifies this, fridgeQueue
      ensures Valid()
      ensures fridgeQueue.urgent == old(fridgeQueue.urgent) + OwnClass(pizza, Urgent)
      ensures fridgeQueue.normal == old(fridgeQueue.normal) + OwnClass(pizza, Normal)
      ensures fridgeQueue.unfinishedTasks == old(fridgeQueue.unfinishedTasks) + 1
      ensures pizzas == old(pizzas) + {pizza}
    {
      label before:
      fridgeQueue.Put(pizza);
      pizzas := pizzas + {pizza};
      Seeded@before(pizza);
    }

    /**
     * `fridge_queue.put(pizza)` for each new pizza, in order: the fridge
     * queue's two lists grow by the pizzas of each priority, in their order.
     */
    method OrderAll(ps: seq<Pizza>)
      requires Valid()
      requires Distinct(ps) && forall i :: 0 <= i < |ps| ==> ps[i] !in pizzas && ps[i].status == InFridge
      modifies this, fridgeQueue
      ensures Valid()
      ensures pizzas == old(pizzas) + Members(ps)
      ensures fridgeQueue.urgent == old(fridgeQueue.urgent) + OfPriority(ps, Urgent)
      ensures fridgeQueue.normal == old(fridgeQueue.normal) + OfPriority(ps, Normal)
      ensures fridgeQueue.unfinishedTasks == old(fridgeQueue.unfinishedTasks) + |ps|
    {
      for i := 0 to |ps|
        invariant Valid()
        invariant pizzas == old(pizzas) + Members(ps[..i])
        invariant fridgeQueue.urgent == old(fridgeQueue.urgent) + OfPriority(ps[..i], Urgent)
        invariant fridgeQueue.normal == old(fridgeQueue.normal) + OfPriority(ps[..i], Normal)
        invariant fridgeQueue.unfinishedTasks == old(fridgeQueue.unfinishedTasks) + i
      {
        OrderNext(ps, i, old(pizzas), old(fridgeQueue.urgent), old(fridgeQueue.normal), old(fridgeQueue.unfinishedTasks));
      }
      assert ps[..|ps|] == ps;
    }

    /** The step of `OrderAll` that orders `ps[i]` after the `i` pizzas before it. */
    method OrderNext(ps: seq<Pizza>, i: nat, ghost pizzas0: set<Pizza>, ghost urgent0: seq<Pizza>, ghost normal0: seq<Pizza>, ghost count0: int)
      requires Valid() && i < |ps| && Distinct(ps) && ps[i] !in pizzas0 && ps[i].status == InFridge
      requires pizzas == pizzas0 + Members(ps[..i])
      requires fridgeQueue.urgent == urgent0 + OfPriority(ps[..i], Urgent)
      requires fridgeQueue.normal == normal0 + OfPriority(ps[..i], Normal)
      requires fridgeQueue.unfinishedTasks == count0 + i
      modifies this, fridgeQueue
      ensures Valid()
      ensures pizzas == pizzas0 + Members(ps[..i + 1])
      ensures fridgeQueue.urgent == urgent0 + OfPriority(ps[..i + 1], Urgent)
      ensures fridgeQueue.normal == normal0 + OfPriority(ps[..i + 1], Normal)
      ensures fridgeQueue.unfinishedTasks == count0 + i + 1
    {
      TakenOneMore(ps, i);
      ghost var urgent, normal := fridgeQueue.urgent, fridgeQueue.normal;
      Order(ps[i]);
      ClassGrows(urgent0, urgent, fridgeQueue.urgent, ps, i, Urgent);
      ClassGrows(normal0, normal, fridgeQueue.normal, ps, i, Normal);
    }

    /** A new pizza put into the fridge queue keeps the kitchen valid. */
    twostate lemma Seeded(pizza: Pizza)
      requires old(Valid()) && pizza !in old(pizzas) && pizza.status == InFridge
      requires pizzas == old(pizzas) + {pizza} && outOfOven == old(outOfOven) && delivered == old(delivered)
      requires Appended(old(fridgeQueue.urgent), old(fridgeQueue.normal), fridgeQueue.urgent, fridgeQueue.normal, pizza)
      requires OneMore(old(fridgeQueue.unfinishedTasks), fridgeQueue.unfinishedTasks, fridgeQueue.finished)
      requires fridgeQueue.Valid()
      requires unchanged(old(pizzas), makeQueue, putIntoOvenQueue, ovenQueue, takeOutOfOvenQueue, packQueue, deliverQueue, ovensSemaphore)
      ensures Valid()
    {
      SeedTallies(pizza);
      SeedLine(fridgeQueue, InFridge, pizza);
      LineWidened(makeQueue, ToMake, pizza);
      LineWidened(putIntoOvenQueue, Made, pizza);
      LineWidened(ovenQueue, InOven, pizza);
      LineWidened(takeOutOfOvenQueue, Baked, pizza);
      LineWidened(packQueue, ToPack, pizza);
      LineWidened(deliverQueue, ToDeliver, pizza);
    }

    /** Ordering a new pizza adds one to the pizzas known and one to the fridge queue's lists and counter. */
    twostate lemma SeedTallies(pizza: Pizza)
      requires old(Tallies()) && pizza !in old(pizzas)
      requires pizzas == old(pizzas) + {pizza} && outOfOven == old(outOfOven) && delivered == old(delivered)
      requires Appended(old(fridgeQueue.urgent), old(fridgeQueue.normal), fridgeQueue.urgent, fridgeQueue.normal, pizza)
      requires OneMore(old(fridgeQueue.unfinishedTasks), fridgeQueue.unfinishedTasks, fridgeQueue.finished)
      requires unchanged(makeQueue, putIntoOvenQueue, ovenQueue, takeOutOfOvenQueue, packQueue, deliverQueue, ovensSemaphore)
      ensures Tallies()
    {
    }

    /** The fridge queue, after the new `pizza` joined it, matches the fridge stage. */
    twostate lemma SeedLine(new q: PriorityQueue, new s: Status, pizza: Pizza)
      requires old(allocated(q)) && old(Line(q, s)) && pizza !in old(pizzas)
      requires Appended(old(q.urgent), old(q.normal), q.urgent, q.normal, pizza) && pizza.status == s
      requires pizzas == old(pizzas) + {pizza} && unchanged(old(pizzas))
      ensures Line(q, s)
    {
      assert pizza !in old(q.urgent) && pizza !in old(q.normal);
      if pizza.priority == Urgent {
        DistinctAppend(old(q.urgent), pizza);
      } else {
        DistinctAppend(old(q.normal), pizza);
      }
    }

    /** A queue nobody touched still matches its stage after a new pizza was ordered. */
    twostate lemma LineWidened(new q: PriorityQueue, new s: Status, pizza: Pizza)
      requires old(allocated(q)) && old(Line(q, s))
      requires q.urgent == old(q.urgent) && q.normal == old(q.normal)
      requires pizzas == old(pizzas) + {pizza} && unchanged(old(pizzas))
      ensures Line(q, s)
    {
    }

    // ---------------------------------------------- one pizza moves one stage on

    /** A queue whose lists did not change still matches its stage when only `pizza`, of another stage, changed. */
    twostate lemma LineKept(new q: PriorityQueue, new s: Status, pizza: Pizza)
      requires old(allocated(q)) && old(Line(q, s)) && old(pizza.status) != s
      requires q.urgent == old(q.urgent) && q.normal == old(q.normal)
      requires pizzas == old(pizzas) && unchanged(pizzas - {pizza})
      ensures Line(q, s)
    {
    }

    /** The queue `pizza` was served from still matches its stage without it. */
    twostate lemma LineShrinks(new q: PriorityQueue, new s: Status, pizza: Pizza)
      requires old(allocated(q)) && old(Line(q, s)) && old(q.Valid())
      requires Popped(old(q.urgent), old(q.normal), q.urgent, q.normal, pizza)
      requires pizzas == old(pizzas) && unchanged(pizzas - {pizza})
      ensures Line(q, s) && pizza in pizzas && old(pizza.status) == s
    {
      if old(q.urgent) != [] {
        assert pizza == old(q.urgent[0]) && old(pizza.status) == s;
        DistinctTail(old(q.urgent));
        assert forall i :: 0 <= i < |q.urgent| ==> q.urgent[i] == old(q.urgent[i + 1]) && q.urgent[i] != pizza;
        assert forall i :: 0 <= i < |q.normal| ==> q.normal[i].priority != pizza.priority;
      } else {
        assert pizza == old(q.normal[0]) && old(pizza.status) == s;
        DistinctTail(old(q.normal));
        assert forall i :: 0 <= i < |q.normal| ==> q.normal[i] == old(q.normal[i + 1]) && q.normal[i] != pizza;
      }
    }

    /** The queue `pizza` was put into matches its stage, the status `pizza` now has. */
    twostate lemma LineGrows(new q: PriorityQueue, new s: Status, pizza: Pizza)
      requires old(allocated(q)) && old(Line(q, s)) && old(pizza.status) != s
      requires Appended(old(q.urgent), old(q.normal), q.urgent, q.normal, pizza)
      requires pizzas == old(pizzas) && unchanged(pizzas - {pizza})
      requires pizza in pizzas && pizza.status == s
      ensures Line(q, s)
    {
      assert pizza !in old(q.urgent) && pizza !in old(q.normal);
      if pizza.priority == Urgent {
        DistinctAppend(old(q.urgent), pizza);
      } else {
        DistinctAppend(old(q.normal), pizza);
      }
    }

    /** Serving the first pizza of the fridge queue, as a worker's round does, keeps the queues' lines and tallies. */
    twostate lemma FridgeServed(pizza: Pizza)
      requires old(Shape() && Lines() && Tallies()) && pizzas == old(pizzas) && unchanged(pizzas - {pizza})
      requires Popped(old(fridgeQueue.urgent), old(fridgeQueue.normal), fridgeQueue.urgent, fridgeQueue.normal, pizza)
      requires OneLess(old(fridgeQueue.unfinishedTasks), old(fridgeQueue.finished), fridgeQueue.unfinishedTasks, fridgeQueue.finished)
      requires Appended(old(makeQueue.urgent), old(makeQueue.normal), makeQueue.urgent, makeQueue.normal, pizza)
      requires OneMore(old(makeQueue.unfinishedTasks), makeQueue.unfinishedTasks, makeQueue.finished)
      requires fridgeQueue.Valid() && makeQueue.Valid() && pizza.status == ToMake
      requires outOfOven == old(outOfOven) && delivered == old(delivered)
      requires unchanged(putIntoOvenQueue, ovenQueue, takeOutOfOvenQueue, packQueue, deliverQueue, ovensSemaphore)
      ensures Shape() && Lines() && Tallies()
    {
      LineShrinks(fridgeQueue, InFridge, pizza);
      LineGrows(makeQueue, ToMake, pizza);
      LineKept(putIntoOvenQueue, Made, pizza);
      LineKept(ovenQueue, InOven, pizza);
      LineKept(takeOutOfOvenQueue, Baked, pizza);
      LineKept(packQueue, ToPack, pizza);
      LineKept(deliverQueue, ToDeliver, pizza);
    }

    /** Serving the first pizza of the make queue keeps the queues' lines and tallies. */
    twostate lemma MakeServed(pizza: Pizza)
      requires old(Shape() && Lines() && Tallies()) && pizzas == old(pizzas) && unchanged(pizzas - {pizza})
      requires Popped(old(makeQueue.urgent), old(makeQueue.normal), makeQueue.urgent, makeQueue.normal, pizza)
      requires OneLess(old(makeQueue.unfinishedTasks), old(makeQueue.finished), makeQueue.unfinishedTasks, makeQueue.finished)
      requires Appended(old(putIntoOvenQueue.urgent), old(putIntoOvenQueue.normal), putIntoOvenQueue.urgent, putIntoOvenQueue.normal, pizza)
      requires OneMore(old(putIntoOvenQueue.unfinishedTasks), putIntoOvenQueue.unfinishedTasks, putIntoOvenQueue.finished)
      requires makeQueue.Valid() && putIntoOvenQueue.Valid() && pizza.status == Made
      requires outOfOven == old(outOfOven) && delivered == old(delivered)
      requires unchanged(fridgeQueue, ovenQueue, takeOutOfOvenQueue, packQueue, deliverQueue, ovensSemaphore)
      ensures Shape() && Lines() && Tallies()
    {
      LineKept(fridgeQueue, InFridge, pizza);
      LineShrinks(makeQueue, ToMake, pizza);
      LineGrows(putIntoOvenQueue, Made, pizza);
      LineKept(ovenQueue, InOven, pizza);
      LineKept(takeOutOfOvenQueue, Baked, pizza);
      LineKept(packQueue, ToPack, pizza);
      LineKept(deliverQueue, ToDeliver, pizza);
    }

    /** Putting the first waiting pizza into an oven, with one permit taken, keeps the queues' lines and tallies. */
    twostate lemma PutInServed(pizza: Pizza)
      requires old(Shape() && Lines() && Tallies()) && pizzas == old(pizzas) && unchanged(pizzas - {pizza})
      requires Popped(old(putIntoOvenQueue.urgent), old(putIntoOvenQueue.normal), putIntoOvenQueue.urgent, putIntoOvenQueue.normal, pizza)
      requires OneLess(old(putIntoOvenQueue.unfinishedTasks), old(putIntoOvenQueue.finished), putIntoOvenQueue.unfinishedTasks, putIntoOvenQueue.finished)
      requires Appended(old(ovenQueue.urgent), old(ovenQueue.normal), ovenQueue.urgent, ovenQueue.normal, pizza)
      requires OneMore(old(ovenQueue.unfinishedTasks), ovenQueue.unfinishedTasks, ovenQueue.finished)
      requires putIntoOvenQueue.Valid() && ovenQueue.Valid() && pizza.status == InOven
      requires ovensSemaphore.value == old(ovensSemaphore.value) - 1
      requires outOfOven == old(outOfOven) && delivered == old(delivered)
      requires unchanged(fridgeQueue, makeQueue, takeOutOfOvenQueue, packQueue, deliverQueue)
      ensures Shape() && Lines() && Tallies()
    {
      LineKept(fridgeQueue, InFridge, pizza);
      LineKept(makeQueue, ToMake, pizza);
      LineShrinks(putIntoOvenQueue, Made, pizza);
      LineGrows(ovenQueue, InOven, pizza);
      LineKept(takeOutOfOvenQueue, Baked, pizza);
      LineKept(packQueue, ToPack, pizza);
      LineKept(deliverQueue, ToDeliver, pizza);
    }

    /** An oven baking the first pizza of the oven queue keeps the queues' lines and tallies. */
    twostate lemma BakeServed(pizza: Pizza)
      requires old(Shape() && Lines() && Tallies()) && pizzas == old(pizzas) && unchanged(pizzas - {pizza})
      requires Popped(old(ovenQueue.urgent), old(ovenQueue.normal), ovenQueue.urgent, ovenQueue.normal, pizza)
      requires OneLess(old(ovenQueue.unfinishedTasks), old(ovenQueue.finished), ovenQueue.unfinishedTasks, ovenQueue.finished)
      requires Appended(old(takeOutOfOvenQueue.urgent), old(takeOutOfOvenQueue.normal), takeOutOfOvenQueue.urgent, takeOutOfOvenQueue.normal, pizza)
      requires OneMore(old(takeOutOfOvenQueue.unfinishedTasks), takeOutOfOvenQueue.unfinishedTasks, takeOutOfOvenQueue.finished)
      requires ovenQueue.Valid() && takeOutOfOvenQueue.Valid() && pizza.status == Baked
      requires outOfOven == old(outOfOven) && delivered == old(delivered)
      requires unchanged(fridgeQueue, makeQueue, putIntoOvenQueue, packQueue, deliverQueue, ovensSemaphore)
      ensures Shape() && Lines() && Tallies()
    {
      LineKept(fridgeQueue, InFridge, pizza);
      LineKept(makeQueue, ToMake, pizza);
      LineKept(putIntoOvenQueue, Made, pizza);
      LineShrinks(ovenQueue, InOven, pizza);
      LineGrows(takeOutOfOvenQueue, Baked, pizza);
      LineKept(packQueue, ToPack, pizza);
      LineKept(deliverQueue, ToDeliver, pizza);
    }

    /**
     * Taking the first baked pizza out, with its permit given back, keeps the
     * queues' lines and tallies; the oven queue, not the take-out queue, counts the task done.
     */
    twostate lemma TakeOutServed(pizza: Pizza)
      requires old(Shape() && Lines() && Tallies()) && pizzas == old(pizzas) && unchanged(pizzas - {pizza})
      requires Popped(old(takeOutOfOvenQueue.urgent), old(takeOutOfOvenQueue.normal), takeOutOfOvenQueue.urgent, takeOutOfOvenQueue.normal, pizza)
      requires takeOutOfOvenQueue.unfinishedTasks == old(takeOutOfOvenQueue.unfinishedTasks)
      requires takeOutOfOvenQueue.finished == old(takeOutOfOvenQueue.finished)
      requires ovenQueue.urgent == old(ovenQueue.urgent) && ovenQueue.normal == old(ovenQueue.normal)
      requires OneLess(old(ovenQueue.unfinishedTasks), old(ovenQueue.finished), ovenQueue.unfinishedTasks, ovenQueue.finished)
      requires Appended(old(packQueue.urgent), old(packQueue.normal), packQueue.urgent, packQueue.normal, pizza)
      requires OneMore(old(packQueue.unfinishedTasks), packQueue.unfinishedTasks, packQueue.finished)
      requires takeOutOfOvenQueue.Valid() && ovenQueue.Valid() && packQueue.Valid() && pizza.status == ToPack
      requires ovensSemaphore.value == old(ovensSemaphore.value) + 1
      requires outOfOven == old(outOfOven) + 1 && delivered == old(delivered)
      requires unchanged(fridgeQueue, makeQueue, putIntoOvenQueue, deliverQueue)
      ensures Shape() && Lines() && Tallies()
    {
      LineKept(fridgeQueue, InFridge, pizza);
      LineKept(makeQueue, ToMake, pizza);
      LineKept(putIntoOvenQueue, Made, pizza);
      LineKept(ovenQueue, InOven, pizza);
      LineShrinks(takeOutOfOvenQueue, Baked, pizza);
      LineGrows(packQueue, ToPack, pizza);
      LineKept(deliverQueue, ToDeliver, pizza);
    }

    /** Packing the first pizza of the pack queue keeps the queues' lines and tallies. */
    twostate lemma PackServed(pizza: Pizza)
      requires old(Shape() && Lines() && Tallies()) && pizzas == old(pizzas) && unchanged(pizzas - {pizza})
      requires Popped(old(packQueue.urgent), old(packQueue.normal), packQueue.urgent, packQueue.normal, pizza)
      requires OneLess(old(packQueue.unfinishedTasks), old(packQueue.finished), packQueue.unfinishedTasks, packQueue.finished)
      requires Appended(old(deliverQueue.urgent), old(deliverQueue.normal), deliverQueue.urgent, deliverQueue.normal, pizza)
      requires OneMore(old(deliverQueue.unfinishedTasks), deliverQueue.unfinishedTasks, deliverQueue.finished)
      requires packQueue.Valid() && deliverQueue.Valid() && pizza.status == ToDeliver
      requires outOfOven == old(outOfOven) && delivered == old(delivered)
      requires unchanged(fridgeQueue, makeQueue, putIntoOvenQueue, ovenQueue, takeOutOfOvenQueue, ovensSemaphore)
      ensures Shape() && Lines() && Tallies()
    {
      LineKept(fridgeQueue, InFridge, pizza);
      LineKept(makeQueue, ToMake, pizza);
      LineKept(putIntoOvenQueue, Made, pizza);
      LineKept(ovenQueue, InOven, pizza);
      LineKept(takeOutOfOvenQueue, Baked, pizza);
      LineShrinks(packQueue, ToPack, pizza);
      LineGrows(deliverQueue, ToDeliver, pizza);
    }

    /** Delivering the first pizza of the deliver queue keeps the queues' lines and tallies. */
    twostate lemma DeliverServed(pizza: Pizza)
      requires old(Shape() && Lines() && Tallies()) && pizzas == old(pizzas) && unchanged(pizzas - {pizza})
      requires Popped(old(deliverQueue.urgent), old(deliverQueue.normal), deliverQueue.urgent, deliverQueue.normal, pizza)
      requires OneLess(old(deliverQueue.unfinishedTasks), old(deliverQueue.finished), deliverQueue.unfinishedTasks, deliverQueue.finished)
      requires deliverQueue.Valid() && pizza.status == Delivered
      requires outOfOven == old(outOfOven) && delivered == old(delivered) + 1
      requires unchanged(fridgeQueue, makeQueue, putIntoOvenQueue, ovenQueue, takeOutOfOvenQueue, packQueue, ovensSemaphore)
      ensures Shape() && Lines() && Tallies()
    {
      LineKept(fridgeQueue, InFridge, pizza);
      LineKept(makeQueue, ToMake, pizza);
      LineKept(putIntoOvenQueue, Made, pizza);
      LineKept(ovenQueue, InOven, pizza);
      LineKept(takeOutOfOvenQueue, Baked, pizza);
      LineKept(packQueue, ToPack, pizza);
      LineShrinks(deliverQueue, ToDeliver, pizza);
    }

    /** A round keeps every pizza ordered in the queue of its status, unless it was delivered. */
    twostate lemma PlacedKept(new s: Status, pizza: Pizza)
      requires s != Delivered && old(Placed()) && Served(s, pizza)
      ensures Placed()
    {
      PoppedKeeps(old(QueueFor(s).urgent), old(QueueFor(s).normal), QueueFor(s).urgent, QueueFor(s).normal, pizza);
      if s != ToDeliver {
        AppendedKeeps(old(QueueFor(Next(s)).urgent), old(QueueFor(Next(s)).normal), QueueFor(Next(s)).urgent, QueueFor(Next(s)).normal, pizza);
      }
      match s
      case InFridge =>
      case ToMake =>
      case Made =>
      case InOven =>
      case Baked =>
      case ToPack =>
      case ToDeliver =>
    }

    /** A round moves only the pizza it served, and that one exactly one stage on: no stage is skipped and none regresses. */
    twostate lemma OneStageOn(new s: Status, pizza: Pizza)
      requires s != Delivered && Served(s, pizza)
      ensures forall p | p in pizzas :: p.status == old(p.status) || (p == pizza && Index(p.status) == Index(old(p.status)) + 1)
    {
    }

    /** The dispatch rule read off the queues themselves, in the order `do_the_job` tests them. */
    lemma ScanOrder()
      ensures NextJob(Waiting(), ovensSemaphore.Locked()) ==
        if !deliverQueue.Empty() then Some(ToDeliver)
        else if !packQueue.Empty() then Some(ToPack)
        else if !takeOutOfOvenQueue.Empty() then Some(Baked)
        else if !putIntoOvenQueue.Empty() && !ovensSemaphore.Locked() then Some(Made)
        else if !makeQueue.Empty() then Some(ToMake)
        else if !fridgeQueue.Empty() then Some(InFridge)
        else None
    {
      assert ToDeliver in Waiting() <==> !deliverQueue.Empty();
      assert ToPack in Waiting() <==> !packQueue.Empty();
      assert Baked in Waiting() <==> !takeOutOfOvenQueue.Empty();
      assert Made in Waiting() <==> !putIntoOvenQueue.Empty();
      assert ToMake in Waiting() <==> !makeQueue.Empty();
      assert InFridge in Waiting() <==> !fridgeQueue.Empty();
    }

    /** A step that touched none of the kitchen's objects keeps the kitchen valid. */
    twostate lemma Untouched()
      requires old(Valid())
      requires unchanged(this, fridgeQueue, makeQueue, putIntoOvenQueue, ovenQueue, takeOutOfOvenQueue)
      requires unchanged(packQueue, deliverQueue, ovensSemaphore) && unchanged(pizzas)
      ensures Valid()
    {
    }

    // ---------------------------------------------------------- what `main` awaits

    /** Oven permits stay between zero and the number of ovens. */
    lemma PermitsBounded()
      requires Valid()
      ensures 0 <= ovensSemaphore.value <= ovensAmount
      ensures ovensAmount - ovensSemaphore.value == |ovenQueue.Contents()| + |takeOutOfOvenQueue.Contents()|
    {
    }

    /** Every queue but the two oven queues is joined exactly when nothing waits in it. */
    lemma JoinedExactlyWhenEmpty()
      requires Valid()
      ensures fridgeQueue.finished <==> fridgeQueue.Contents() == []
      ensures makeQueue.finished <==> makeQueue.Contents() == []
      ensures putIntoOvenQueue.finished <==> putIntoOvenQueue.Contents() == []
      ensures packQueue.finished <==> packQueue.Contents() == []
      ensures deliverQueue.finished <==> deliverQueue.Contents() == []
    {
    }

    /**
     * Once a pizza has come out of an oven, `take_out_of_oven_queue.join()`
     * can never return: that queue is never marked done.
     */
    lemma TakeOutQueueNeverDrains()
      requires Valid() && outOfOven > 0
      ensures !takeOutOfOvenQueue.finished && takeOutOfOvenQueue.unfinishedTasks >= outOfOven
    {
    }

    /** The oven queue is marked done twice per pizza, so its counter falls below zero once pizzas are out. */
    lemma OvenQueueCountedTwice()
      requires Valid()
      ensures ovenQueue.unfinishedTasks == |ovenQueue.Contents()| - outOfOven
    {
    }

    /**
     * A fetch that marks the fridge queue's last task done, taken while the
     * five queues after the make queue are still idle, leaves those five and
     * the fridge queue with their events set.
     */
    twostate lemma LastFetchJoins(pizza: Pizza)
      requires old(fridgeQueue.unfinishedTasks) == 1
      requires old(putIntoOvenQueue.finished && takeOutOfOvenQueue.finished && ovenQueue.finished)
      requires old(packQueue.finished && deliverQueue.finished)
      requires Served(InFridge, pizza)
      ensures fridgeQueue.finished && putIntoOvenQueue.finished && takeOutOfOvenQueue.finished
      ensures ovenQueue.finished && packQueue.finished && deliverQueue.finished
    {
    }

    /**
     * At any one moment, the seven queues' events are all set only when no
     * pizza was ever ordered. `main` awaits them one after another, so this
     * does not stop its joins from passing with a pizza unfinished
     * (`JoinsPassWithPizzaInFlight`).
     */
    lemma AllJoinedOnlyWithoutPizzas()
      requires Valid()
      requires fridgeQueue.finished && makeQueue.finished && putIntoOvenQueue.finished && ovenQueue.finished
      requires takeOutOfOvenQueue.finished && packQueue.finished && deliverQueue.finished
      ensures pizzas == {}
    {
    }

    /**
     * The seven `join()` calls at the end of `main`, in its order but all at
     * one moment: `all` says whether every one of them would return without
     * waiting, which is so only when no pizza was ordered.
     */
    method JoinAll() returns (all: bool)
      requires Valid()
      ensures all <==> (makeQueue.finished && fridgeQueue.finished && putIntoOvenQueue.finished
        && takeOutOfOvenQueue.finished && ovenQueue.finished && packQueue.finished && deliverQueue.finished)
      ensures all ==> pizzas == {}
    {
      var make := makeQueue.Join();
      var fridge := fridgeQueue.Join();
      var putIn := putIntoOvenQueue.Join();
      var takeOut := takeOutOfOvenQueue.Join();
      var oven := ovenQueue.Join();
      var pack := packQueue.Join();
      var deliver := deliverQueue.Join();
      all := make && fridge && putIn && takeOut && oven && pack && deliver;
      if all {
        AllJoinedOnlyWithoutPizzas();
      }
    }
  }
}

/** The workers and ovens of implement_order_priority.py, each round an atomic step on the kitchen. */
module OrderPriorityWorkers {
  import opened PizzaCommon
  import opened OrderPriority

  /** A worker of the factory: it shows the pizza it is busy with. */
  class PizzaMaker {
    const number: int
    var activePizza: Pizza?

    constructor (number: int)
      ensures this.number == number && activePizza == null
    {
      this.number := number;
      activePizza := null;
    }

    /** `make_busy`: the worker shows `pizza` as its active pizza for `seconds`. */
    method MakeBusy(seconds: nat, pizza: Pizza) returns (busy: nat)
      modifies this
      ensures activePizza == pizza && busy == seconds
    {
      activePizza := pizza;
      busy := seconds;
    }

    /** `get_ingredients_from_fridge`: the pizza goes to the make queue and the fridge queue counts one task done. */
    method GetIngredientsFromFridge(pizza: Pizza, k: Kitchen) returns (seconds: nat)
      requires k.Separate() && k.fridgeQueue.Valid() && k.makeQueue.Valid()
      modifies this, pizza, k.fridgeQueue, k.makeQueue
      ensures pizza.status == ToMake && activePizza == pizza && seconds == 1
      ensures k.makeQueue.Valid()
      ensures Appended(old(k.makeQueue.urgent), old(k.makeQueue.normal), k.makeQueue.urgent, k.makeQueue.normal, pizza)
      ensures OneMore(old(k.makeQueue.unfinishedTasks), k.makeQueue.unfinishedTasks, k.makeQueue.finished)
      ensures k.fridgeQueue.Valid() && k.fridgeQueue.urgent == old(k.fridgeQueue.urgent) && k.fridgeQueue.normal == old(k.fridgeQueue.normal)
      ensures OneLess(old(k.fridgeQueue.unfinishedTasks), old(k.fridgeQueue.finished), k.fridgeQueue.unfinishedTasks, k.fridgeQueue.finished)
    {
      seconds := MakeBusy(1, pizza);
      pizza.status := ToMake;
      k.makeQueue.Put(pizza);
      k.fridgeQueue.TaskDone();
    }

    /** `make_pizza`: two seconds of work, then the pizza waits to go into an oven. */
    method MakePizza(pizza: Pizza, k: Kitchen) returns (seconds: nat)
      requires k.Separate() && k.makeQueue.Valid() && k.putIntoOvenQueue.Valid()
      modifies this, pizza, k.makeQueue, k.putIntoOvenQueue
      ensures pizza.status == Made && activePizza == pizza && seconds == 2
      ensures k.putIntoOvenQueue.Valid()
      ensures Appended(old(k.putIntoOvenQueue.urgent), old(k.putIntoOvenQueue.normal), k.putIntoOvenQueue.urgent, k.putIntoOvenQueue.normal, pizza)
      ensures OneMore(old(k.putIntoOvenQueue.unfinishedTasks), k.putIntoOvenQueue.unfinishedTasks, k.putIntoOvenQueue.finished)
      ensures k.makeQueue.Valid() && k.makeQueue.urgent == old(k.makeQueue.urgent) && k.makeQueue.normal == old(k.makeQueue.normal)
      ensures OneLess(old(k.makeQueue.unfinishedTasks), old(k.makeQueue.finished), k.makeQueue.unfinishedTasks, k.makeQueue.finished)
    {
      seconds := MakeBusy(2, pizza);
      pizza.status := Made;
      k.putIntoOvenQueue.Put(pizza);
      k.makeQueue.TaskDone();
    }

    /** `put_into_oven`: one oven permit is taken first, then the pizza joins the oven queue. */
    method PutIntoOven(pizza: Pizza, k: Kitchen) returns (seconds: nat)
      requires k.Separate() && k.putIntoOvenQueue.Valid() && k.ovenQueue.Valid()
      requires k.ovensSemaphore.value > 0
      modifies this, pizza, k.putIntoOvenQueue, k.ovenQueue, k.ovensSemaphore
      ensures pizza.status == InOven && activePizza == pizza && seconds == 1
      ensures k.ovensSemaphore.value == old(k.ovensSemaphore.value) - 1
      ensures k.ovenQueue.Valid()
      ensures Appended(old(k.ovenQueue.urgent), old(k.ovenQueue.normal), k.ovenQueue.urgent, k.ovenQueue.normal, pizza)
      ensures OneMore(old(k.ovenQueue.unfinishedTasks), k.ovenQueue.unfinishedTasks, k.ovenQueue.finished)
      ensures k.putIntoOvenQueue.Valid() && k.putIntoOvenQueue.urgent == old(k.putIntoOvenQueue.urgent) && k.putIntoOvenQueue.normal == old(k.putIntoOvenQueue.normal)
      ensures OneLess(old(k.putIntoOvenQueue.unfinishedTasks), old(k.putIntoOvenQueue.finished), k.putIntoOvenQueue.unfinishedTasks, k.putIntoOvenQueue.finished)
    {
      k.ovensSemaphore.Acquire();
      seconds := MakeBusy(1, pizza);
      pizza.status := InOven;
      k.ovenQueue.Put(pizza);
      k.putIntoOvenQueue.TaskDone();
    }

    /** `take_out_of_oven`: the permit goes back, the pizza goes to packing, and the oven queue counts a task done. */
    method TakeOutOfOven(pizza: Pizza, k: Kitchen) returns (seconds: nat)
      requires k.Separate() && k.ovenQueue.Valid() && k.packQueue.Valid()
      modifies this, pizza, k, k.ovenQueue, k.packQueue, k.ovensSemaphore
      ensures pizza.status == ToPack && activePizza == pizza && seconds == 1
      ensures k.ovensSemaphore.value == old(k.ovensSemaphore.value) + 1
      ensures k.outOfOven == old(k.outOfOven) + 1 && k.delivered == old(k.delivered) && k.pizzas == old(k.pizzas)
      ensures k.packQueue.Valid()
      ensures Appended(old(k.packQueue.urgent), old(k.packQueue.normal), k.packQueue.urgent, k.packQueue.normal, pizza)
      ensures OneMore(old(k.packQueue.unfinishedTasks), k.packQueue.unfinishedTasks, k.packQueue.finished)
      ensures k.ovenQueue.Valid() && k.ovenQueue.urgent == old(k.ovenQueue.urgent) && k.ovenQueue.normal == old(k.ovenQueue.normal)
      ensures OneLess(old(k.ovenQueue.unfinishedTasks), old(k.ovenQueue.finished), k.ovenQueue.unfinishedTasks, k.ovenQueue.finished)
    {
      seconds := MakeBusy(1, pizza);
      k.ovensSemaphore.Release();
      pizza.status := ToPack;
      k.packQueue.Put(pizza);
      k.ovenQueue.TaskDone();
      k.outOfOven := k.outOfOven + 1;
    }

    /** `pack_pizza`: the packed pizza waits for delivery. */
    method PackPizza(pizza: Pizza, k: Kitchen) returns (seconds: nat)
      requires k.Separate() && k.packQueue.Valid() && k.deliverQueue.Valid()
      modifies this, pizza, k.packQueue, k.deliverQueue
      ensures pizza.status == ToDeliver && activePizza == pizza && seconds == 1
      ensures k.deliverQueue.Valid()
      ensures Appended(old(k.deliverQueue.urgent), old(k.deliverQueue.normal), k.deliverQueue.urgent, k.deliverQueue.normal, pizza)
      ensures OneMore(old(k.deliverQueue.unfinishedTasks), k.deliverQueue.unfinishedTasks, k.deliverQueue.finished)
      ensures k.packQueue.Valid() && k.packQueue.urgent == old(k.packQueue.urgent) && k.packQueue.normal == old(k.packQueue.normal)
      ensures OneLess(old(k.packQueue.unfinishedTasks), old(k.packQueue.finished), k.packQueue.unfinishedTasks, k.packQueue.finished)
    {
      seconds := MakeBusy(1, pizza);
      pizza.status := ToDeliver;
      k.deliverQueue.Put(pizza);
      k.packQueue.TaskDone();
    }

    /** `deliver_pizza`: the pizza is delivered and leaves the queues for good. */
    method DeliverPizza(pizza: Pizza, k: Kitchen) returns (seconds: nat)
      requires k.deliverQueue.Valid()
      modifies this, pizza, k, k.deliverQueue
      ensures pizza.status == Delivered && activePizza == pizza && seconds == 1
      ensures k.delivered == old(k.delivered) + 1 && k.outOfOven == old(k.outOfOven) && k.pizzas == old(k.pizzas)
      ensures k.deliverQueue.Valid() && k.deliverQueue.urgent == old(k.deliverQueue.urgent) && k.deliverQueue.normal == old(k.deliverQueue.normal)
      ensures OneLess(old(k.deliverQueue.unfinishedTasks), old(k.deliverQueue.finished), k.deliverQueue.unfinishedTasks, k.deliverQueue.finished)
    {
      seconds := MakeBusy(1, pizza);
      pizza.status := Delivered;
      k.deliverQueue.TaskDone();
      k.delivered := k.delivered + 1;
    }

    /** The fridge branch of `do_the_job`: the first pizza of the fridge queue gets its ingredients. */
    method ServeFridge(k: Kitchen) returns (pizza: Pizza, seconds: nat)
      requires k.Valid() && k.fridgeQueue.Contents() != []
      modifies this, k.fridgeQueue, k.makeQueue, k.pizzas
      ensures k.Valid()
      ensures pizza == old(k.fridgeQueue.Contents())[0] && old(pizza.status) == InFridge && pizza.status == ToMake
      ensures k.Served(InFridge, pizza)
      ensures k.pizzas == old(k.pizzas)
      ensures activePizza == pizza && seconds == 1
    {
      var got := k.fridgeQueue.Get();
      pizza := got.value;
      seconds := GetIngredientsFromFridge(pizza, k);
      k.PlacedKept(InFridge, pizza);
      k.FridgeServed(pizza);
    }

    /** The make branch of `do_the_job`. */
    method ServeMake(k: Kitchen) returns (pizza: Pizza, seconds: nat)
      requires k.Valid() && k.makeQueue.Contents() != []
      modifies this, k.makeQueue, k.putIntoOvenQueue, k.pizzas
      ensures k.Valid()
      ensures pizza == old(k.makeQueue.Contents())[0] && old(pizza.status) == ToMake && pizza.status == Made
      ensures k.Served(ToMake, pizza)
      ensures k.pizzas == old(k.pizzas)
      ensures activePizza == pizza && seconds == 2
    {
      var got := k.makeQueue.Get();
      pizza := got.value;
      seconds := MakePizza(pizza, k);
      k.PlacedKept(ToMake, pizza);
      k.MakeServed(pizza);
    }

    /** The put-into-oven branch of `do_the_job`, taken only while a permit is free. */
    method ServePutIn(k: Kitchen) returns (pizza: Pizza, seconds: nat)
      requires k.Valid() && k.putIntoOvenQueue.Contents() != [] && k.ovensSemaphore.value > 0
      modifies this, k.putIntoOvenQueue, k.ovenQueue, k.ovensSemaphore, k.pizzas
      ensures k.Valid()
      ensures pizza == old(k.putIntoOvenQueue.Contents())[0] && old(pizza.status) == Made && pizza.status == InOven
      ensures k.Served(Made, pizza)
      ensures k.pizzas == old(k.pizzas)
      ensures activePizza == pizza && seconds == 1
    {
      var got := k.putIntoOvenQueue.Get();
      pizza := got.value;
      seconds := PutIntoOven(pizza, k);
      k.PlacedKept(Made, pizza);
      k.PutInServed(pizza);
    }

    /** The take-out branch of `do_the_job`. */
    method ServeTakeOut(k: Kitchen) returns (pizza: Pizza, seconds: nat)
      requires k.Valid() && k.takeOutOfOvenQueue.Contents() != []
      modifies this, k, k.takeOutOfOvenQueue, k.ovenQueue, k.packQueue, k.ovensSemaphore, k.pizzas
      ensures k.Valid()
      ensures pizza == old(k.takeOutOfOvenQueue.Contents())[0] && old(pizza.status) == Baked && pizza.status == ToPack
      ensures k.Served(Baked, pizza)
      ensures k.pizzas == old(k.pizzas)
      ensures activePizza == pizza && seconds == 1
    {
      var got := k.takeOutOfOvenQueue.Get();
      pizza := got.value;
      seconds := TakeOutOfOven(pizza, k);
      k.PlacedKept(Baked, pizza);
      k.TakeOutServed(pizza);
    }

    /** The pack branch of `do_the_job`. */
    method ServePack(k: Kitchen) returns (pizza: Pizza, seconds: nat)
      requires k.Valid() && k.packQueue.Contents() != []
      modifies this, k.packQueue, k.deliverQueue, k.pizzas
      ensures k.Valid()
      ensures pizza == old(k.packQueue.Contents())[0] && old(pizza.status) == ToPack && pizza.status == ToDeliver
      ensures k.Served(ToPack, pizza)
      ensures k.pizzas == old(k.pizzas)
      ensures activePizza == pizza && seconds == 1
    {
      var got := k.packQueue.Get();
      pizza := got.value;
      seconds := PackPizza(pizza, k);
      k.PlacedKept(ToPack, pizza);
      k.PackServed(pizza);
    }

    /** The deliver branch of `do_the_job`. */
    method ServeDeliver(k: Kitchen) returns (pizza: Pizza, seconds: nat)
      requires k.Valid() && k.deliverQueue.Contents() != []
      modifies this, k, k.deliverQueue, k.pizzas
      ensures k.Valid()
      ensures pizza == old(k.deliverQueue.Contents())[0] && old(pizza.status) == ToDeliver && pizza.status == Delivered
      ensures k.Served(ToDeliver, pizza)
      ensures k.pizzas == old(k.pizzas)
      ensures activePizza == pizza && seconds == 1
    {
      var got := k.deliverQueue.Get();
      pizza := got.value;
      seconds := DeliverPizza(pizza, k);
      k.PlacedKept(ToDeliver, pizza);
      k.DeliverServed(pizza);
    }

    /**
     * One round of `do_the_job`: the scan serves the first stage, output end
     * first, whose queue has pizzas and, for put-in, a free permit; otherwise
     * the worker shows no pizza and idles for a second.
     */
    method DoJob(k: Kitchen) returns (job: Option<Status>, seconds: nat)
      requires k.Valid()
      modifies this, k, k.fridgeQueue, k.makeQueue, k.putIntoOvenQueue, k.ovenQueue, k.takeOutOfOvenQueue
      modifies k.packQueue, k.deliverQueue, k.ovensSemaphore, k.pizzas
      ensures k.Valid() && k.pizzas == old(k.pizzas)
      ensures job == NextJob(old(k.Waiting()), old(k.ovensSemaphore.Locked()))
      ensures job.None? ==> activePizza == null && seconds == 1
      ensures job.Some? ==> old(k.QueueFor(job.value).Contents()) != []
      ensures job.Some? ==> activePizza == old(k.QueueFor(job.value).Contents())[0] && activePizza.status == Next(job.value)
      ensures job.Some? ==> k.Served(job.value, activePizza)
      ensures job.None? ==> unchanged(k, k.fridgeQueue, k.makeQueue, k.putIntoOvenQueue, k.ovenQueue, k.takeOutOfOvenQueue)
      ensures job.None? ==> unchanged(k.packQueue, k.deliverQueue, k.ovensSemaphore) && unchanged(k.pizzas)
      ensures seconds == if job == Some(ToMake) then 2 else 1
    {
      if !k.deliverQueue.Empty() || !k.packQueue.Empty() || !k.takeOutOfOvenQueue.Empty() {
        job, seconds := DoJobAfterOven(k);
      } else {
        job, seconds := DoJobBeforeOven(k);
      }
    }

    /** The scan's first half, when something waits after the ovens: deliver, pack, else take-out. */
    method DoJobAfterOven(k: Kitchen) returns (job: Option<Status>, seconds: nat)
      requires !k.deliverQueue.Empty() || !k.packQueue.Empty() || !k.takeOutOfOvenQueue.Empty()
      requires k.Valid()
      modifies this, k, k.fridgeQueue, k.makeQueue, k.putIntoOvenQueue, k.ovenQueue, k.takeOutOfOvenQueue
      modifies k.packQueue, k.deliverQueue, k.ovensSemaphore, k.pizzas
      ensures k.Valid() && k.pizzas == old(k.pizzas)
      ensures job == NextJob(old(k.Waiting()), old(k.ovensSemaphore.Locked()))
      ensures job.None? ==> activePizza == null && seconds == 1
      ensures job.Some? ==> old(k.QueueFor(job.value).Contents()) != []
      ensures job.Some? ==> activePizza == old(k.QueueFor(job.value).Contents())[0] && activePizza.status == Next(job.value)
      ensures job.Some? ==> k.Served(job.value, activePizza)
      ensures job.None? ==> unchanged(k, k.fridgeQueue, k.makeQueue, k.putIntoOvenQueue, k.ovenQueue, k.takeOutOfOvenQueue)
      ensures job.None? ==> unchanged(k.packQueue, k.deliverQueue, k.ovensSemaphore) && unchanged(k.pizzas)
      ensures seconds == if job == Some(ToMake) then 2 else 1
    {
      k.ScanOrder();
      var pizza: Pizza;
      if !k.deliverQueue.Empty() {
        pizza, seconds := ServeDeliver(k);
        job := Some(ToDeliver);
        assert activePizza == old(k.QueueFor(job.value).Contents())[0] && activePizza.status == Next(job.value);
      } else if !k.packQueue.Empty() {
        pizza, seconds := ServePack(k);
        job := Some(ToPack);
        assert activePizza == old(k.QueueFor(job.value).Contents())[0] && activePizza.status == Next(job.value);
      } else {
        pizza, seconds := ServeTakeOut(k);
        job := Some(Baked);
        assert activePizza == old(k.QueueFor(job.value).Contents())[0] && activePizza.status == Next(job.value);
      }
    }

    /** The rest of the scan, once nothing waits after the ovens: put-in, make, fridge, else idle. */
    method DoJobBeforeOven(k: Kitchen) returns (job: Option<Status>, seconds: nat)
      requires k.deliverQueue.Empty() && k.packQueue.Empty() && k.takeOutOfOvenQueue.Empty()
      requires k.Valid()
      modifies this, k, k.fridgeQueue, k.makeQueue, k.putIntoOvenQueue, k.ovenQueue, k.takeOutOfOvenQueue
      modifies k.packQueue, k.deliverQueue, k.ovensSemaphore, k.pizzas
      ensures k.Valid() && k.pizzas == old(k.pizzas)
      ensures job == NextJob(old(k.Waiting()), old(k.ovensSemaphore.Locked()))
      ensures job.None? ==> activePizza == null && seconds == 1
      ensures job.Some? ==> old(k.QueueFor(job.value).Contents()) != []
      ensures job.Some? ==> activePizza == old(k.QueueFor(job.value).Contents())[0] && activePizza.status == Next(job.value)
      ensures job.Some? ==> k.Served(job.value, activePizza)
      ensures job.None? ==> unchanged(k, k.fridgeQueue, k.makeQueue, k.putIntoOvenQueue, k.ovenQueue, k.takeOutOfOvenQueue)
      ensures job.None? ==> unchanged(k.packQueue, k.deliverQueue, k.ovensSemaphore) && unchanged(k.pizzas)
      ensures seconds == if job == Some(ToMake) then 2 else 1
    {
      k.ScanOrder();
      var pizza: Pizza;
      if !k.putIntoOvenQueue.Empty() && !k.ovensSemaphore.Locked() {
        pizza, seconds := ServePutIn(k);
        job := Some(Made);
        assert activePizza == old(k.QueueFor(job.value).Contents())[0] && activePizza.status == Next(job.value);
      } else if !k.makeQueue.Empty() {
        pizza, seconds := ServeMake(k);
        job := Some(ToMake);
        assert activePizza == old(k.QueueFor(job.value).Contents())[0] && activePizza.status == Next(job.value);
      } else if !k.fridgeQueue.Empty() {
        pizza, seconds := ServeFridge(k);
        job := Some(InFridge);
        assert activePizza == old(k.QueueFor(job.value).Contents())[0] && activePizza.status == Next(job.value);
      } else {
        label idle:
        activePizza := null;
        k.Untouched@idle();
        seconds := 1;
        job := None;
      }
    }

    /** `do_the_job` for a number of rounds, after which the task is cancelled. */
    method DoTheJob(k: Kitchen, rounds: nat)
      requires k.Valid()
      modifies this, k, k.fridgeQueue, k.makeQueue, k.putIntoOvenQueue, k.ovenQueue, k.takeOutOfOvenQueue
      modifies k.packQueue, k.deliverQueue, k.ovensSemaphore, k.pizzas
      ensures k.Valid() && k.pizzas == old(k.pizzas)
    {
      var i := 0;
      while i < rounds
        invariant k.Valid() && k.pizzas == old(k.pizzas)
      {
        var job, seconds := DoJob(k);
        i := i + 1;
      }
    }
  }

  /** An oven: it bakes the first pizza of the oven queue. */
  class Oven {
    constructor ()
    {
    }

    /** The body of the oven's loop once a pizza was taken: four seconds in the oven, then it waits to be taken out. */
    method Bake(pizza: Pizza, k: Kitchen) returns (seconds: real)
      requires k.Separate() && k.ovenQueue.Valid() && k.takeOutOfOvenQueue.Valid()
      modifies pizza, k.ovenQueue, k.takeOutOfOvenQueue
      ensures pizza.status == Baked && seconds == 4.0
      ensures k.takeOutOfOvenQueue.Valid()
      ensures Appended(old(k.takeOutOfOvenQueue.urgent), old(k.takeOutOfOvenQueue.normal), k.takeOutOfOvenQueue.urgent, k.takeOutOfOvenQueue.normal, pizza)
      ensures OneMore(old(k.takeOutOfOvenQueue.unfinishedTasks), k.takeOutOfOvenQueue.unfinishedTasks, k.takeOutOfOvenQueue.finished)
      ensures k.ovenQueue.Valid() && k.ovenQueue.urgent == old(k.ovenQueue.urgent) && k.ovenQueue.normal == old(k.ovenQueue.normal)
      ensures OneLess(old(k.ovenQueue.unfinishedTasks), old(k.ovenQueue.finished), k.ovenQueue.unfinishedTasks, k.ovenQueue.finished)
    {
      seconds := 4.0;
      pizza.status := Baked;
      k.takeOutOfOvenQueue.Put(pizza);
      k.ovenQueue.TaskDone();
    }

    /** The baking branch of `Oven.do_the_job`: the first pizza of the oven queue is baked. */
    method ServeOven(k: Kitchen) returns (pizza: Pizza, seconds: real)
      requires k.Valid() && k.ovenQueue.Contents() != []
      modifies k.ovenQueue, k.takeOutOfOvenQueue, k.pizzas
      ensures k.Valid()
      ensures pizza == old(k.ovenQueue.Contents())[0] && old(pizza.status) == InOven && pizza.status == Baked
      ensures k.Served(InOven, pizza)
      ensures seconds == 4.0
    {
      var got := k.ovenQueue.Get();
      pizza := got.value;
      seconds := Bake(pizza, k);
      k.PlacedKept(InOven, pizza);
      k.BakeServed(pizza);
    }

    /** One round of `Oven.do_the_job`: bake the first pizza of the oven queue, or wait a tenth of a second. */
    method Step(k: Kitchen) returns (baked: Option<Pizza>, seconds: real)
      requires k.Valid()
      modifies k.ovenQueue, k.takeOutOfOvenQueue, k.pizzas
      ensures k.Valid()
      ensures baked.None? <==> old(k.ovenQueue.Contents()) == []
      ensures baked.None? ==> seconds == 0.1 && unchanged(k.ovenQueue, k.takeOutOfOvenQueue, k.pizzas)
      ensures baked.Some? ==> baked.value == old(k.ovenQueue.Contents())[0] && seconds == 4.0
      ensures baked.Some? ==> old(baked.value.status) == InOven && baked.value.status == Baked
      ensures baked.Some? ==> k.Served(InOven, baked.value)
    {
      if k.ovenQueue.Empty() {
        baked, seconds := None, 0.1;
      } else {
        var pizza;
        pizza, seconds := ServeOven(k);
        baked := Some(pizza);
      }
    }

    /** `Oven.do_the_job` for a number of rounds, after which the task is cancelled. */
    method DoTheJob(k: Kitchen, rounds: nat)
      requires k.Valid()
      modifies k.ovenQueue, k.takeOutOfOvenQueue, k.pizzas
      ensures k.Valid()
    {
      for i := 0 to rounds
        invariant k.Valid()
      {
        var baked, seconds := Step(k);
      }
    }
  }

  /** `[Oven() for _ in range(ovens_amount)]`. */
  method NewOvens(ovensAmount: nat) returns (ovens: seq<Oven>)
    ensures |ovens| == ovensAmount
  {
    ovens := [];
    for i := 0 to ovensAmount
      invariant |ovens| == i
    {
      var oven := new Oven();
      ovens := ovens + [oven];
    }
  }

  /** `[PizzaMaker(i + 1) for i in range(workers_amount)]`: idle workers numbered from 1. */
  method NewWorkers(workersAmount: nat) returns (workers: seq<PizzaMaker>)
    ensures |workers| == workersAmount
    ensures forall i :: 0 <= i < |workers| ==> workers[i].number == i + 1 && workers[i].activePizza == null && fresh(workers[i])
  {
    workers := [];
    for i := 0 to workersAmount
      invariant |workers| == i
      invariant forall j :: 0 <= j < i ==> workers[j].number == j + 1 && workers[j].activePizza == null && fresh(workers[j])
    {
      var worker := new PizzaMaker(i + 1);
      workers := workers + [worker];
    }
  }

  /** New pizzas numbered from 1 with the given priorities, all in the fridge and all different objects. */
  method NewPizzas(priorities: seq<Priority>) returns (pizzas: seq<Pizza>)
    ensures |pizzas| == |priorities| && Distinct(pizzas)
    ensures forall i :: 0 <= i < |pizzas| ==>
      pizzas[i].pizzaId == i + 1 && pizzas[i].priority == priorities[i] && pizzas[i].status == InFridge && fresh(pizzas[i])
  {
    pizzas := [];
    for i := 0 to |priorities|
      invariant |pizzas| == i && Distinct(pizzas)
      invariant forall j :: 0 <= j < i ==>
        pizzas[j].pizzaId == j + 1 && pizzas[j].priority == priorities[j] && pizzas[j].status == InFridge && fresh(pizzas[j])
    {
      var pizza := new Pizza(i + 1, priorities[i]);
      DistinctAppend(pizzas, pizza);
      pizzas := pizzas + [pizza];
    }
  }

  /**
   * The kitchen side of `main`'s set-up: the queues, the ovens' semaphore,
   * and pizzas numbered from 1 with the given priorities, each put into the
   * fridge queue in order.
   */
  method OpenKitchen(ovensAmount: nat, priorities: seq<Priority>) returns (k: Kitchen, pizzas: seq<Pizza>)
    ensures k.Valid() && k.ovensAmount == ovensAmount && k.ovensSemaphore.value == ovensAmount
    ensures |pizzas| == |priorities|
    ensures forall i :: 0 <= i < |pizzas| ==> pizzas[i].pizzaId == i + 1 && pizzas[i].priority == priorities[i]
    ensures k.pizzas == Members(pizzas)
    ensures k.fridgeQueue.urgent == OfPriority(pizzas, Urgent) && k.fridgeQueue.normal == OfPriority(pizzas, Normal)
    ensures k.fridgeQueue.unfinishedTasks == |pizzas|
    ensures k.makeQueue.Idle() && k.putIntoOvenQueue.Idle() && k.ovenQueue.Idle()
    ensures k.takeOutOfOvenQueue.Idle() && k.packQueue.Idle() && k.deliverQueue.Idle()
    ensures fresh(k) && fresh(k.fridgeQueue) && fresh(k.makeQueue) && fresh(k.putIntoOvenQueue) && fresh(k.ovenQueue)
    ensures fresh(k.takeOutOfOvenQueue) && fresh(k.packQueue) && fresh(k.deliverQueue) && fresh(k.ovensSemaphore)
    ensures forall i :: 0 <= i < |pizzas| ==> fresh(pizzas[i])
  {
    pizzas := NewPizzas(priorities);
    k := new Kitchen(ovensAmount);
    k.OrderAll(pizzas);
  }

  /**
   * `main`'s seven awaits, one after another, for one pizza of either
   * priority, one worker and one oven. `make` is the make join, taken as
   * soon as the pizza is ordered: nothing has reached the make queue, so its
   * event is still set. `rest` is the other six joins, taken once the worker
   * has fetched the ingredients: the fridge queue has been marked done and
   * nothing has reached the later queues. All seven pass while the pizza is
   * still waiting to be made, so `main` goes on to cancel the workers with
   * the pizza unfinished.
   */
  method JoinsPassWithPizzaInFlight(priority: Priority) returns (k: Kitchen, pizza: Pizza, make: bool, rest: bool)
    ensures make && rest
    ensures k.pizzas == {pizza} && pizza.status == ToMake && pizza.priority == priority
  {
    var workers := NewWorkers(1);
    var pizzas;
    k, pizzas := OpenKitchen(1, [priority]);
    make := k.makeQueue.Join();
    assert k.fridgeQueue.Contents() == pizzas;
    label ordered:
    var seconds;
    pizza, seconds := workers[0].ServeFridge(k);
    k.LastFetchJoins@ordered(pizza);
    var fridge := k.fridgeQueue.Join();
    var putIn := k.putIntoOvenQueue.Join();
    var takeOut := k.takeOutOfOvenQueue.Join();
    var oven := k.ovenQueue.Join();
    var pack := k.packQueue.Join();
    var deliver := k.deliverQueue.Join();
    rest := fridge && putIn && takeOut && oven && pack && deliver;
  }
}
