/**
 * The plain-queue variant of the pizza factory (app.py): every stage queue is
 * a FIFO `asyncio.Queue`, an urgent pizza jumps to the front of the make
 * queue, making takes as long as the pizza's type says, a specialist drops
 * the pizzas it cannot make, and no stage ever marks a task done.
 *
 * As in the priority-queue variant, each worker or oven round is one atomic
 * step: a `Get` from a queue whose `empty()` test just failed, followed by the
 * stage method for the pizza taken. The kitchen's invariant holds between
 * rounds.
 */
module App {
  import opened PizzaCommon

  /** The make, bake and pack times of one pizza type, in seconds. */
  datatype Times = Times(make: nat, bake: nat, pack: nat)

  /** The type a pizza gets when none is named. */
  const DEFAULT_TYPE: string := "Pepperoni"

  /** `Pizza.PIZZA_TYPES`: `None` stands for the `KeyError` of a type not in the table. */
  function PizzaTypes(pizzaType: string): (r: Option<Times>)
    ensures r.Some? <==> pizzaType in {"Margherita", "Pepperoni", "Veggie"}
    ensures r.Some? ==> r.value.make > 0 && r.value.bake > 0 && r.value.pack > 0
  {
    if pizzaType == "Margherita" then Some(Times(2, 3, 1))
    else if pizzaType == "Pepperoni" then Some(Times(3, 4, 2))
    else if pizzaType == "Veggie" then Some(Times(4, 5, 2))
    else None
  }

  class Pizza {
    /** `self.pizza`: the pizza's number. */
    const number: int
    const pizzaType: string
    const priority: Priority
    const preparationTimes: Times
    var status: Status

    /** `Pizza(pizza, type, priority)` for a type the table lists. */
    constructor (number: int, pizzaType: string, priority: Priority)
      requires PizzaTypes(pizzaType).Some?
      ensures this.number == number && this.pizzaType == pizzaType && this.priority == priority
      ensures preparationTimes == PizzaTypes(pizzaType).value && status == InFridge
    {
      this.number := number;
      this.pizzaType := pizzaType;
      this.priority := priority;
      preparationTimes := PizzaTypes(pizzaType).value;
      status := InFridge;
    }
  }

  /** `Pizza(pizza, type, priority)`: `None` when the table lookup fails with `KeyError`. */
  method NewPizza(number: int, pizzaType: string, priority: Priority) returns (r: Option<Pizza>)
    ensures r.None? <==> pizzaType !in {"Margherita", "Pepperoni", "Veggie"}
    ensures r.Some? ==> fresh(r.value) && r.value.number == number && r.value.pizzaType == pizzaType
    ensures r.Some? ==> r.value.priority == priority && r.value.status == InFridge
    ensures r.Some? ==> r.value.preparationTimes == PizzaTypes(pizzaType).value
  {
    if PizzaTypes(pizzaType).Some? {
      var pizza := new Pizza(number, pizzaType, priority);
      r := Some(pizza);
    } else {
      r := None;
    }
  }

  // ------------------------------------------------------------ asyncio.Queue

  /**
   * `asyncio.Queue` as this program uses it: a FIFO list, the unfinished-task
   * counter and the `finished` event of the completion protocol.
   */
  class Queue {
    var items: seq<Pizza>
    var unfinishedTasks: int
    var finished: bool

    /** The event is set exactly when no task is unfinished, and no count is negative (nothing calls `task_done`). */
    ghost predicate Valid()
      reads this
    {
      unfinishedTasks >= 0 && (finished <==> unfinishedTasks == 0)
    }

    /** A queue as `asyncio.Queue()` creates it: nothing waiting, nothing counted, the event set. */
    ghost predicate Idle()
      reads this
    {
      items == [] && unfinishedTasks == 0 && finished
    }

    constructor ()
      ensures Valid() && Idle()
    {
      items := [];
      unfinishedTasks := 0;
      finished := true;
    }

    /** `put(item)`: the item joins the back, one more task is unfinished, and the event is cleared. */
    method Put(item: Pizza)
      requires Valid()
      modifies this
      ensures Valid() && items == old(items) + [item]
      ensures unfinishedTasks == old(unfinishedTasks) + 1 && !finished
    {
      items := items + [item];
      unfinishedTasks := unfinishedTasks + 1;
      finished := false;
    }

    /** `_queue.appendleft(item)`: the item goes to the front without `put`, so neither the counter nor the event changes. */
    method AppendLeft(item: Pizza)
      modifies this
      ensures items == [item] + old(items)
      ensures unfinishedTasks == old(unfinishedTasks) && finished == old(finished)
    {
      items := [item] + items;
    }

    /** `get()`: the first item leaves; `None` stands for waiting on an empty queue. The counter and the event do not change. */
    method Get() returns (r: Option<Pizza>)
      modifies this
      ensures r.None? <==> old(items) == []
      ensures r.Some? ==> r.value == old(items)[0] && items == old(items)[1..]
      ensures r.None? ==> items == old(items)
      ensures unfinishedTasks == old(unfinishedTasks) && finished == old(finished)
    {
      if items == [] {
        r := None;
      } else {
        r := Some(items[0]);
        items := items[1..];
      }
    }

    /** `empty()`: no item waits. */
    function Empty(): (r: bool)
      reads this
      ensures r <==> items == []
    {
      |items| == 0
    }

    /** `join()` returns at once exactly when the `finished` event is set; otherwise it waits. */
    function Join(): (returned: bool)
      reads this
      requires Valid()
      ensures returned <==> unfinishedTasks == 0
    {
      finished
    }
  }

  /** The pizzas of `ps` whose priority is `pr`, in their order in `ps`. */
  function OfPriority(ps: seq<Pizza>, pr: Priority): (r: seq<Pizza>)
    ensures |r| <= |ps|
    ensures forall i :: 0 <= i < |r| ==> r[i] in ps && r[i].priority == pr
    ensures forall i :: 0 <= i < |ps| && ps[i].priority == pr ==> ps[i] in r
    decreases |ps|
  {
    if ps == [] then []
    else OfPriority(ps[..|ps| - 1], pr) + (if ps[|ps| - 1].priority == pr then [ps[|ps| - 1]] else [])
  }

  /** The make queue's list after the fridge step handled `pizza`: an urgent pizza goes to the front, any other to the back. */
  function Fetched(items: seq<Pizza>, pizza: Pizza): seq<Pizza>
  {
    if pizza.priority == Urgent then [pizza] + items else items + [pizza]
  }

  /** The make queue's list after the fridge step handled each pizza of `fetched`, in order, starting from `items`. */
  function FetchedAll(items: seq<Pizza>, fetched: seq<Pizza>): seq<Pizza>
    decreases |fetched|
  {
    if fetched == [] then items
    else Fetched(FetchedAll(items, fetched[..|fetched| - 1]), fetched[|fetched| - 1])
  }

  /**
   * The make order the fridge steps produce: the urgent pizzas, the one
   * fetched last first, then the pizzas that were already waiting, then the
   * normal pizzas in the order they were fetched.
   */
  lemma {:induction false} FetchOrder(items: seq<Pizza>, fetched: seq<Pizza>)
    ensures FetchedAll(items, fetched)
      == Reversed(OfPriority(fetched, Urgent)) + items + OfPriority(fetched, Normal)
    decreases |fetched|
  {
    if fetched != [] {
      var before, pizza := fetched[..|fetched| - 1], fetched[|fetched| - 1];
      var urgent, normal := OfPriority(before, Urgent), OfPriority(before, Normal);
      calc {
        FetchedAll(items, fetched);
        Fetched(FetchedAll(items, before), pizza);
        { FetchOrder(items, before); }
        Fetched(Reversed(urgent) + items + normal, pizza);
        { if pizza.priority == Urgent {
            UrgentFetched(urgent, items, normal, pizza);
            assert OfPriority(fetched, Urgent) == urgent + [pizza] && OfPriority(fetched, Normal) == normal;
          } else {
            NormalFetched(urgent, items, normal, pizza);
            assert OfPriority(fetched, Urgent) == urgent && OfPriority(fetched, Normal) == normal + [pizza];
          } }
        Reversed(OfPriority(fetched, Urgent)) + items + OfPriority(fetched, Normal);
      }
    }
  }

  /** The step of `FetchOrder` for an urgent pizza: it goes in front of the urgent pizzas fetched before it. */
  lemma UrgentFetched(urgent: seq<Pizza>, items: seq<Pizza>, normal: seq<Pizza>, pizza: Pizza)
    requires pizza.priority == Urgent
    ensures Fetched(Reversed(urgent) + items + normal, pizza) == Reversed(urgent + [pizza]) + items + normal
  {
    ReversedSnoc(urgent, pizza);
    assert Fetched(Reversed(urgent) + items + normal, pizza) == [pizza] + (Reversed(urgent) + items + normal);
    assert [pizza] + (Reversed(urgent) + items + normal) == [pizza] + Reversed(urgent) + items + normal;
  }

  /** The step of `FetchOrder` for a normal pizza: it goes behind the normal pizzas fetched before it. */
  lemma NormalFetched(urgent: seq<Pizza>, items: seq<Pizza>, normal: seq<Pizza>, pizza: Pizza)
    requires pizza.priority != Urgent
    ensures Fetched(Reversed(urgent) + items + normal, pizza) == Reversed(urgent) + items + (normal + [pizza])
  {
    assert Fetched(Reversed(urgent) + items + normal, pizza) == Reversed(urgent) + items + normal + [pizza];
  }

  // ------------------------------------------------------------ the kitchen

  /** The module-level queues and the ovens' semaphore that all workers and ovens share. */
  class Kitchen {
    const fridgeQueue: Queue
    const makeQueue: Queue
    const putIntoOvenQueue: Queue
    const takeOutOfOvenQueue: Queue
    const packQueue: Queue
    const deliverQueue: Queue
    const ovenQueue: Queue
    const ovensSemaphore: Semaphore
    const ovensAmount: nat

    /** Every pizza ever put into the fridge queue. */
    ghost var pizzas: set<Pizza>
    /** How many pizzas have been delivered so far. */
    ghost var delivered: nat
    /** The pizzas a specialist took from the make queue and dropped. */
    ghost var dropped: set<Pizza>

    /** The queue where pizzas of status `s` wait. */
    function QueueFor(s: Status): Queue
      requires s != Delivered
    {
      match s
      case InFridge => fridgeQueue
      case ToMake => makeQueue
      case Made => putIntoOvenQueue
      case InOven => ovenQueue
      case Baked => takeOutOfOvenQueue
      case ToPack => packQueue
      case ToDeliver => deliverQueue
    }

    /** The seven queues are seven different objects. */
    ghost predicate Separate()
    {
      fridgeQueue !in {makeQueue, putIntoOvenQueue, ovenQueue, takeOutOfOvenQueue, packQueue, deliverQueue}
      && makeQueue !in {putIntoOvenQueue, ovenQueue, takeOutOfOvenQueue, packQueue, deliverQueue}
      && putIntoOvenQueue !in {ovenQueue, takeOutOfOvenQueue, packQueue, deliverQueue}
      && ovenQueue !in {takeOutOfOvenQueue, packQueue, deliverQueue}
      && takeOutOfOvenQueue !in {packQueue, deliverQueue}
      && packQueue != deliverQueue
    }

    /** Queue `q` of stage `s` holds known pizzas of status `s`, none of them twice. */
    ghost predicate Line(q: Queue, s: Status)
      reads this, q, pizzas
    {
      Distinct(q.items) && forall i :: 0 <= i < |q.items| ==> q.items[i] in pizzas && q.items[i].status == s
    }

    ghost predicate Shape()
      reads this, fridgeQueue, makeQueue, putIntoOvenQueue, ovenQueue, takeOutOfOvenQueue, packQueue, deliverQueue
    {
      Separate()
      && fridgeQueue.Valid() && makeQueue.Valid() && putIntoOvenQueue.Valid() && ovenQueue.Valid()
      && takeOutOfOvenQueue.Valid() && packQueue.Valid() && deliverQueue.Valid()
    }

    ghost predicate Lines()
      reads this, fridgeQueue, makeQueue, putIntoOvenQueue, ovenQueue, takeOutOfOvenQueue, packQueue, deliverQueue, pizzas
    {
      Line(fridgeQueue, InFridge) && Line(makeQueue, ToMake) && Line(putIntoOvenQueue, Made)
      && Line(ovenQueue, InOven) && Line(takeOutOfOvenQueue, Baked) && Line(packQueue, ToPack)
      && Line(deliverQueue, ToDeliver)
    }

    ghost predicate Tallies()
      reads this, fridgeQueue, makeQueue, putIntoOvenQueue, ovenQueue, takeOutOfOvenQueue, packQueue, deliverQueue, ovensSemaphore
    {
      // every pizza was put into the fridge queue once, and gets never lower the count
      fridgeQueue.unfinishedTasks == |pizzas|
      // every oven is either free or holds a pizza between put-in and take-out
      && ovensSemaphore.value + |ovenQueue.items| + |takeOutOfOvenQueue.items| == ovensAmount
      // every pizza waits for a stage, was delivered, or was dropped by a specialist
      && |pizzas| == |fridgeQueue.items| + |makeQueue.items| + |putIntoOvenQueue.items| + |ovenQueue.items|
                     + |takeOutOfOvenQueue.items| + |packQueue.items| + |deliverQueue.items| + delivered + |dropped|
    }

    /**
     * Every pizza ordered waits in the queue of its status (and so, by `Lines`,
     * in no other), unless it was delivered or dropped; a dropped pizza keeps
     * the status `ToMake` but waits in no queue.
     */
    ghost predicate Placed()
      reads this, fridgeQueue, makeQueue, putIntoOvenQueue, ovenQueue, takeOutOfOvenQueue, packQueue, deliverQueue, pizzas
    {
      dropped <= pizzas
      && forall p | p in pizzas ::
           if p in dropped then p.status == ToMake && p !in makeQueue.items
           else p.status == Delivered || p in QueueFor(p.status).items
    }

    /**
     * The kitchen invariant: the four parts above together. The `let` keeps
     * the verifier from unfolding all four parts wherever `Valid()` is
     * merely passed along; the proofs of the longer rounds need that to stay
     * within their resource limit.
     */
    ghost predicate Valid()
      reads this, fridgeQueue, makeQueue, putIntoOvenQueue, ovenQueue, takeOutOfOvenQueue, packQueue, deliverQueue, ovensSemaphore, pizzas
    {
      var ok := Shape() && Lines() && Tallies() && Placed(); ok
    }

    /** The stages whose queue is not empty. */
    ghost function Waiting(): set<Status>
      reads this, fridgeQueue, makeQueue, putIntoOvenQueue, ovenQueue, takeOutOfOvenQueue, packQueue, deliverQueue
    {
      set s | s in QueuedStatuses && QueueFor(s).items != []
    }

    /** No queue's unfinished-task count went down since the pre-state: nothing calls `task_done`. */
    twostate predicate CountsKept()
      reads this, fridgeQueue, makeQueue, putIntoOvenQueue, ovenQueue, takeOutOfOvenQueue, packQueue, deliverQueue
    {
      old(fridgeQueue.unfinishedTasks) <= fridgeQueue.unfinishedTasks
      && old(makeQueue.unfinishedTasks) <= makeQueue.unfinishedTasks
      && old(putIntoOvenQueue.unfinishedTasks) <= putIntoOvenQueue.unfinishedTasks
      && old(ovenQueue.unfinishedTasks) <= ovenQueue.unfinishedTasks
      && old(takeOutOfOvenQueue.unfinishedTasks) <= takeOutOfOvenQueue.unfinishedTasks
      && old(packQueue.unfinishedTasks) <= packQueue.unfinishedTasks
      && old(deliverQueue.unfinishedTasks) <= deliverQueue.unfinishedTasks
    }

    /** The stages whose queues a round serving stage `s` changes. */
    function Touched(s: Status): set<Status>
      requires s != Delivered
    {
      {s, Next(s)}
    }

    /**
     * One round serving stage `s`, as `do_the_job` or the oven's loop runs it:
     * `pizza`, the first pizza `get` hands out from that stage's queue, moves
     * one stage on and joins the next stage's queue (none after delivery): at
     * the back by `put`, or, for an urgent pizza out of the fridge, at the
     * front by `appendleft`, which counts no task. Put-in takes a permit and
     * take-out gives it back; no other queue and no other pizza changes.
     */
    twostate predicate Served(new s: Status, pizza: Pizza)
      requires s != Delivered
      reads this, fridgeQueue, makeQueue, putIntoOvenQueue, ovenQueue, takeOutOfOvenQueue, packQueue, deliverQueue, ovensSemaphore, pizzas
    {
      pizzas == old(pizzas) && pizza in pizzas && unchanged(pizzas - {pizza})
      && old(pizza.status) == s && pizza.status == Next(s)
      && old(QueueFor(s).items) != [] && pizza == old(QueueFor(s).items)[0]
      && QueueFor(s).items == old(QueueFor(s).items)[1..]
      && QueueFor(s).unfinishedTasks == old(QueueFor(s).unfinishedTasks) && QueueFor(s).finished == old(QueueFor(s).finished)
      && (s == InFridge ==>
            makeQueue.items == Fetched(old(makeQueue.items), pizza)
            && if pizza.priority == Urgent
               then makeQueue.unfinishedTasks == old(makeQueue.unfinishedTasks) && makeQueue.finished == old(makeQueue.finished)
               else makeQueue.unfinishedTasks == old(makeQueue.unfinishedTasks) + 1 && !makeQueue.finished)
      && (s != InFridge && s != ToDeliver ==>
            QueueFor(Next(s)).items == old(QueueFor(Next(s)).items) + [pizza]
            && QueueFor(Next(s)).unfinishedTasks == old(QueueFor(Next(s)).unfinishedTasks) + 1 && !QueueFor(Next(s)).finished)
      && (InFridge !in Touched(s) ==> unchanged(fridgeQueue))
      && (ToMake !in Touched(s) ==> unchanged(makeQueue))
      && (Made !in Touched(s) ==> unchanged(putIntoOvenQueue))
      && (InOven !in Touched(s) ==> unchanged(ovenQueue))
      && (Baked !in Touched(s) ==> unchanged(takeOutOfOvenQueue))
      && (ToPack !in Touched(s) ==> unchanged(packQueue))
      && (ToDeliver !in Touched(s) ==> unchanged(deliverQueue))
      && ovensSemaphore.value == old(ovensSemaphore.value) + (if s == Made then -1 else if s == Baked then 1 else 0)
      && delivered == old(delivered) + (if s == ToDeliver then 1 else 0) && dropped == old(dropped)
    }

    /**
     * A specialist's make round for a type it cannot make: the first pizza of
     * the make queue leaves it and is dropped with its status unchanged; no
     * other queue, no counter and no pizza changes.
     */
    twostate predicate Dropped(pizza: Pizza)
      reads this, fridgeQueue, makeQueue, putIntoOvenQueue, ovenQueue, takeOutOfOvenQueue, packQueue, deliverQueue, ovensSemaphore, pizzas
    {
      pizzas == old(pizzas) && unchanged(pizzas)
      && old(makeQueue.items) != [] && pizza == old(makeQueue.items)[0] && makeQueue.items == old(makeQueue.items)[1..]
      && makeQueue.unfinishedTasks == old(makeQueue.unfinishedTasks) && makeQueue.finished == old(makeQueue.finished)
      && unchanged(fridgeQueue, putIntoOvenQueue, ovenQueue, takeOutOfOvenQueue, packQueue, deliverQueue, ovensSemaphore)
      && delivered == old(delivered) && dropped == old(dropped) + {pizza}
    }

    /** The module-level queues and `Semaphore(ovens_amount)` of `main`. */
    constructor (ovensAmount: nat)
      ensures Valid() && pizzas == {} && delivered == 0 && dropped == {}
      ensures this.ovensAmount == ovensAmount && ovensSemaphore.value == ovensAmount
      ensures fridgeQueue.Idle() && makeQueue.Idle() && putIntoOvenQueue.Idle() && ovenQueue.Idle()
      ensures takeOutOfOvenQueue.Idle() && packQueue.Idle() && deliverQueue.Idle()
      ensures fresh(fridgeQueue) && fresh(makeQueue) && fresh(putIntoOvenQueue) && fresh(ovenQueue)
      ensures fresh(takeOutOfOvenQueue) && fresh(packQueue) && fresh(deliverQueue) && fresh(ovensSemaphore)
    {
      fridgeQueue := new Queue();
      makeQueue := new Queue();
      putIntoOvenQueue := new Queue();
      takeOutOfOvenQueue := new Queue();
      packQueue := new Queue();
      deliverQueue := new Queue();
      ovenQueue := new Queue();
      ovensSemaphore := new Semaphore(ovensAmount);
      this.ovensAmount := ovensAmount;
      pizzas := {};
      delivered := 0;
      dropped := {};
      new;
      Opened();
    }

    lemma Opened()
      requires Separate() && pizzas == {} && delivered == 0 && dropped == {}
      requires ovensSemaphore.value == ovensAmount
      requires fridgeQueue.Valid() && makeQueue.Valid() && putIntoOvenQueue.Valid() && ovenQueue.Valid()
      requires takeOutOfOvenQueue.Valid() && packQueue.Valid() && deliverQueue.Valid()
      requires fridgeQueue.items == [] && makeQueue.items == [] && putIntoOvenQueue.items == [] && ovenQueue.items == []
      requires takeOutOfOvenQueue.items == [] && packQueue.items == [] && deliverQueue.items == []
      requires fridgeQueue.unfinishedTasks == 0
      ensures Valid()
    {
    }

    // ------------------------------------------------------------ ordering

    /** `fridge_queue.put(pizza)` for a new pizza in `main`: it waits in the fridge queue behind the others. */
    method Order(pizza: Pizza)
      requires Valid() && pizza !in pizzas && pizza.status == InFridge
      modifies this, fridgeQueue
      ensures Valid()
      ensures fridgeQueue.items == old(fridgeQueue.items) + [pizza]
      ensures fridgeQueue.unfinishedTasks == old(fridgeQueue.unfinishedTasks) + 1
      ensures pizzas == old(pizzas) + {pizza}
    {
      label before:
      fridgeQueue.Put(pizza);
      pizzas := pizzas + {pizza};
      Seeded@before(pizza);
    }

    /** `fridge_queue.put(pizza)` for each new pizza, in order: the fridge queue grows by exactly these pizzas. */
    method OrderAll(ps: seq<Pizza>)
      requires Valid()
      requires Distinct(ps) && forall i :: 0 <= i < |ps| ==> ps[i] !in pizzas && ps[i].status == InFridge
      modifies this, fridgeQueue
      ensures Valid()
      ensures pizzas == old(pizzas) + Members(ps)
      ensures fridgeQueue.items == old(fridgeQueue.items) + ps
      ensures fridgeQueue.unfinishedTasks == old(fridgeQueue.unfinishedTasks) + |ps|
    {
      for i := 0 to |ps|
        invariant Valid()
        invariant pizzas == old(pizzas) + Members(ps[..i])
        invariant fridgeQueue.items == old(fridgeQueue.items) + ps[..i]
        invariant fridgeQueue.unfinishedTasks == old(fridgeQueue.unfinishedTasks) + i
      {
        OrderNext(ps, i, old(pizzas), old(fridgeQueue.items), old(fridgeQueue.unfinishedTasks));
      }
      assert ps[..|ps|] == ps;
    }

    /** The step of `OrderAll` that orders `ps[i]` after the `i` pizzas before it. */
    method OrderNext(ps: seq<Pizza>, i: nat, ghost pizzas0: set<Pizza>, ghost items0: seq<Pizza>, ghost count0: int)
      requires Valid() && i < |ps| && Distinct(ps) && ps[i] !in pizzas0 && ps[i].status == InFridge
      requires pizzas == pizzas0 + Members(ps[..i])
      requires fridgeQueue.items == items0 + ps[..i]
      requires fridgeQueue.unfinishedTasks == count0 + i
      modifies this, fridgeQueue
      ensures Valid()
      ensures pizzas == pizzas0 + Members(ps[..i + 1])
      ensures fridgeQueue.items == items0 + ps[..i + 1]
      ensures fridgeQueue.unfinishedTasks == count0 + i + 1
    {
      TakenOneMore(ps, i);
      ghost var items := fridgeQueue.items;
      Order(ps[i]);
      PrefixGrows(items0, items, fridgeQueue.items, ps, i);
    }

    /** A new pizza put into the fridge queue keeps the kitchen valid. */
    twostate lemma Seeded(pizza: Pizza)
      requires old(Valid()) && pizza !in old(pizzas) && pizza.status == InFridge
      requires pizzas == old(pizzas) + {pizza} && delivered == old(delivered) && dropped == old(dropped)
      requires fridgeQueue.items == old(fridgeQueue.items) + [pizza]
      requires fridgeQueue.unfinishedTasks == old(fridgeQueue.unfinishedTasks) + 1 && fridgeQueue.Valid()
      requires unchanged(old(pizzas), makeQueue, putIntoOvenQueue, ovenQueue, takeOutOfOvenQueue, packQueue, deliverQueue, ovensSemaphore)
      ensures Valid()
    {
      SeedLine(fridgeQueue, InFridge, pizza);
      LineWidened(makeQueue, ToMake, pizza);
      LineWidened(putIntoOvenQueue, Made, pizza);
      LineWidened(ovenQueue, InOven, pizza);
      LineWidened(takeOutOfOvenQueue, Baked, pizza);
      LineWidened(packQueue, ToPack, pizza);
      LineWidened(deliverQueue, ToDeliver, pizza);
    }

    /** The fridge queue, after the new `pizza` joined it, matches the fridge stage. */
    twostate lemma SeedLine(new q: Queue, new s: Status, pizza: Pizza)
      requires old(allocated(q)) && old(Line(q, s)) && pizza !in old(pizzas)
      requires q.items == old(q.items) + [pizza] && pizza.status == s
      requires pizzas == old(pizzas) + {pizza} && unchanged(old(pizzas))
      ensures Line(q, s)
    {
      assert pizza !in old(q.items);
      DistinctAppend(old(q.items), pizza);
    }

    /** A queue nobody touched still matches its stage after a new pizza was ordered. */
    twostate lemma LineWidened(new q: Queue, new s: Status, pizza: Pizza)
      requires old(allocated(q)) && old(Line(q, s))
      requires q.items == old(q.items)
      requires pizzas == old(pizzas) + {pizza} && unchanged(old(pizzas))
      ensures Line(q, s)
    {
    }

    // ---------------------------------------------- one pizza moves one stage on

    /** A queue whose list did not change still matches its stage when only `pizza`, of another stage, changed. */
    twostate lemma LineKept(new q: Queue, new s: Status, pizza: Pizza)
      requires old(allocated(q)) && old(Line(q, s)) && old(pizza.status) != s
      requires q.items == old(q.items)
      requires pizzas == old(pizzas) && unchanged(pizzas - {pizza})
      ensures Line(q, s)
    {
    }

    /** The queue `pizza` was served from still matches its stage without it. */
    twostate lemma LineShrinks(new q: Queue, new s: Status, pizza: Pizza)
      requires old(allocated(q)) && old(Line(q, s))
      requires old(q.items) != [] && pizza == old(q.items)[0] && q.items == old(q.items)[1..]
      requires pizzas == old(pizzas) && unchanged(pizzas - {pizza})
      ensures Line(q, s) && pizza in pizzas && old(pizza.status) == s
    {
      DistinctTail(old(q.items));
      assert forall i :: 0 <= i < |q.items| ==> q.items[i] == old(q.items[i + 1]) && q.items[i] != pizza;
    }

    /** The queue `pizza` was put into, at the back or at the front, matches its stage, the status `pizza` now has. */
    twostate lemma LineGrows(new q: Queue, new s: Status, pizza: Pizza)
      requires old(allocated(q)) && old(Line(q, s)) && old(pizza.status) != s
      requires q.items == old(q.items) + [pizza] || q.items == [pizza] + old(q.items)
      requires pizzas == old(pizzas) && unchanged(pizzas - {pizza})
      requires pizza in pizzas && pizza.status == s
      ensures Line(q, s)
    {
      assert pizza !in old(q.items);
      DistinctAppend(old(q.items), pizza);
      assert multiset([pizza] + old(q.items)) == multiset(old(q.items) + [pizza]);
    }

    /** Fetching the first pizza of the fridge queue, to the back or the front of the make queue, keeps the queues' lines and tallies. */
    twostate lemma FridgeServed(pizza: Pizza)
      requires old(Shape() && Lines() && Tallies()) && pizzas == old(pizzas) && unchanged(pizzas - {pizza})
      requires old(fridgeQueue.items) != [] && pizza == old(fridgeQueue.items)[0] && fridgeQueue.items == old(fridgeQueue.items)[1..]
      requires fridgeQueue.unfinishedTasks == old(fridgeQueue.unfinishedTasks) && fridgeQueue.finished == old(fridgeQueue.finished)
      requires makeQueue.items == old(makeQueue.items) + [pizza] || makeQueue.items == [pizza] + old(makeQueue.items)
      requires makeQueue.Valid() && pizza.status == ToMake
      requires delivered == old(delivered) && dropped == old(dropped)
      requires unchanged(putIntoOvenQueue, ovenQueue, takeOutOfOvenQueue, packQueue, deliverQueue, ovensSemaphore)
      ensures Shape() && Lines() && Tallies()
    {
      LineShrinks(fridgeQueue, InFridge, pizza);
      LineGrows(makeQueue, ToMake, pizza);
      LineKept(putIntoOvenQueue, Made, pizza);
      LineKept(ovenQueue, InOven, pizza);
      LineKept(takeOutOfOvenQueue, Baked, pizza);
      LineKept(packQueue, ToPack, pizza);
      LineKept(deliverQueue, ToDeliver, pizza);
    }

    /** Making the first pizza of the make queue keeps the queues' lines and tallies. */
    twostate lemma MakeServed(pizza: Pizza)
      requires old(Shape() && Lines() && Tallies()) && pizzas == old(pizzas) && unchanged(pizzas - {pizza})
      requires old(makeQueue.items) != [] && pizza == old(makeQueue.items)[0] && makeQueue.items == old(makeQueue.items)[1..]
      requires makeQueue.unfinishedTasks == old(makeQueue.unfinishedTasks) && makeQueue.finished == old(makeQueue.finished)
      requires putIntoOvenQueue.items == old(putIntoOvenQueue.items) + [pizza]
      requires putIntoOvenQueue.Valid() && pizza.status == Made
      requires delivered == old(delivered) && dropped == old(dropped)
      requires unchanged(fridgeQueue, ovenQueue, takeOutOfOvenQueue, packQueue, deliverQueue, ovensSemaphore)
      ensures Shape() && Lines() && Tallies()
    {
      LineKept(fridgeQueue, InFridge, pizza);
      LineShrinks(makeQueue, ToMake, pizza);
      LineGrows(putIntoOvenQueue, Made, pizza);
      LineKept(ovenQueue, InOven, pizza);
      LineKept(takeOutOfOvenQueue, Baked, pizza);
      LineKept(packQueue, ToPack, pizza);
      LineKept(deliverQueue, ToDeliver, pizza);
    }

    /**
     * A specialist dropping the first pizza of the make queue keeps the
     * queues' lines and tallies: the pizza keeps its status and is in no queue any more.
     */
    twostate lemma MakeDropped(pizza: Pizza)
      requires old(Shape() && Lines() && Tallies()) && pizzas == old(pizzas) && unchanged(pizzas)
      requires old(makeQueue.items) != [] && pizza == old(makeQueue.items)[0] && makeQueue.items == old(makeQueue.items)[1..]
      requires makeQueue.unfinishedTasks == old(makeQueue.unfinishedTasks) && makeQueue.finished == old(makeQueue.finished)
      requires delivered == old(delivered) && dropped == old(dropped) + {pizza} && pizza !in old(dropped)
      requires unchanged(fridgeQueue, putIntoOvenQueue, ovenQueue, takeOutOfOvenQueue, packQueue, deliverQueue, ovensSemaphore)
      ensures Shape() && Lines() && Tallies() && pizza.status == ToMake
      ensures pizza !in fridgeQueue.items && pizza !in makeQueue.items && pizza !in putIntoOvenQueue.items
      ensures pizza !in ovenQueue.items && pizza !in takeOutOfOvenQueue.items && pizza !in packQueue.items
      ensures pizza !in deliverQueue.items
    {
      LineKept(fridgeQueue, InFridge, pizza);
      LineShrinks(makeQueue, ToMake, pizza);
      LineKept(putIntoOvenQueue, Made, pizza);
      LineKept(ovenQueue, InOven, pizza);
      LineKept(takeOutOfOvenQueue, Baked, pizza);
      LineKept(packQueue, ToPack, pizza);
      LineKept(deliverQueue, ToDeliver, pizza);
      DistinctTail(old(makeQueue.items));
    }

    /** Putting the first waiting pizza into an oven, with one permit taken, keeps the queues' lines and tallies. */
    twostate lemma PutInServed(pizza: Pizza)
      requires old(Shape() && Lines() && Tallies()) && pizzas == old(pizzas) && unchanged(pizzas - {pizza})
      requires old(putIntoOvenQueue.items) != [] && pizza == old(putIntoOvenQueue.items)[0]
      requires putIntoOvenQueue.items == old(putIntoOvenQueue.items)[1..]
      requires putIntoOvenQueue.unfinishedTasks == old(putIntoOvenQueue.unfinishedTasks)
      requires putIntoOvenQueue.finished == old(putIntoOvenQueue.finished)
      requires ovenQueue.items == old(ovenQueue.items) + [pizza]
      requires ovenQueue.Valid() && pizza.status == InOven
      requires ovensSemaphore.value == old(ovensSemaphore.value) - 1
      requires delivered == old(delivered) && dropped == old(dropped)
      requires unchanged(fridgeQueue, makeQueue, takeOutOfOvenQueue, packQueue, deliverQueue)
      ensures Shape() && Lines() && Tallies()
    {
      LineKept(fridgeQueue, InFridge, pizza);
      LineKept(makeQueue, ToMake, pizza);
      LineShrinks(putIntoOvenQueue, Made, pizza);
      LineGrows(ovenQueue, InOven, pizza);
      LineKept(takeOutOfOvenQueue, Baked, pizza);
      LineKept(packQueue, ToPack, pizza);
      LineKept(deliverQueue, ToDeliver, pizza);
    }

    /** An oven baking the first pizza of the oven queue keeps the queues' lines and tallies. */
    twostate lemma BakeServed(pizza: Pizza)
      requires old(Shape() && Lines() && Tallies()) && pizzas == old(pizzas) && unchanged(pizzas - {pizza})
      requires old(ovenQueue.items) != [] && pizza == old(ovenQueue.items)[0] && ovenQueue.items == old(ovenQueue.items)[1..]
      requires ovenQueue.unfinishedTasks == old(ovenQueue.unfinishedTasks) && ovenQueue.finished == old(ovenQueue.finished)
      requires takeOutOfOvenQueue.items == old(takeOutOfOvenQueue.items) + [pizza]
      requires takeOutOfOvenQueue.Valid() && pizza.status == Baked
      requires delivered == old(delivered) && dropped == old(dropped)
      requires unchanged(fridgeQueue, makeQueue, putIntoOvenQueue, packQueue, deliverQueue, ovensSemaphore)
      ensures Shape() && Lines() && Tallies()
    {
      LineKept(fridgeQueue, InFridge, pizza);
      LineKept(makeQueue, ToMake, pizza);
      LineKept(putIntoOvenQueue, Made, pizza);
      LineShrinks(ovenQueue, InOven, pizza);
      LineGrows(takeOutOfOvenQueue, Baked, pizza);
      LineKept(packQueue, ToPack, pizza);
      LineKept(deliverQueue, ToDeliver, pizza);
    }

    /** Taking the first baked pizza out, with its permit given back, keeps the queues' lines and tallies. */
    twostate lemma TakeOutServed(pizza: Pizza)
      requires old(Shape() && Lines() && Tallies()) && pizzas == old(pizzas) && unchanged(pizzas - {pizza})
      requires old(takeOutOfOvenQueue.items) != [] && pizza == old(takeOutOfOvenQueue.items)[0]
      requires takeOutOfOvenQueue.items == old(takeOutOfOvenQueue.items)[1..]
      requires takeOutOfOvenQueue.unfinishedTasks == old(takeOutOfOvenQueue.unfinishedTasks)
      requires takeOutOfOvenQueue.finished == old(takeOutOfOvenQueue.finished)
      requires packQueue.items == old(packQueue.items) + [pizza]
      requires packQueue.Valid() && pizza.status == ToPack
      requires ovensSemaphore.value == old(ovensSemaphore.value) + 1
      requires delivered == old(delivered) && dropped == old(dropped)
      requires unchanged(fridgeQueue, makeQueue, putIntoOvenQueue, ovenQueue, deliverQueue)
      ensures Shape() && Lines() && Tallies()
    {
      LineKept(fridgeQueue, InFridge, pizza);
      LineKept(makeQueue, ToMake, pizza);
      LineKept(putIntoOvenQueue, Made, pizza);
      LineKept(ovenQueue, InOven, pizza);
      LineShrinks(takeOutOfOvenQueue, Baked, pizza);
      LineGrows(packQueue, ToPack, pizza);
      LineKept(deliverQueue, ToDeliver, pizza);
    }

    /** Packing the first pizza of the pack queue keeps the queues' lines and tallies. */
    twostate lemma PackServed(pizza: Pizza)
      requires old(Shape() && Lines() && Tallies()) && pizzas == old(pizzas) && unchanged(pizzas - {pizza})
      requires old(packQueue.items) != [] && pizza == old(packQueue.items)[0] && packQueue.items == old(packQueue.items)[1..]
      requires packQueue.unfinishedTasks == old(packQueue.unfinishedTasks) && packQueue.finished == old(packQueue.finished)
      requires deliverQueue.items == old(deliverQueue.items) + [pizza]
      requires deliverQueue.Valid() && pizza.status == ToDeliver
      requires delivered == old(delivered) && dropped == old(dropped)
      requires unchanged(fridgeQueue, makeQueue, putIntoOvenQueue, ovenQueue, takeOutOfOvenQueue, ovensSemaphore)
      ensures Shape() && Lines() && Tallies()
    {
      LineKept(fridgeQueue, InFridge, pizza);
      LineKept(makeQueue, ToMake, pizza);
      LineKept(putIntoOvenQueue, Made, pizza);
      LineKept(ovenQueue, InOven, pizza);
      LineKept(takeOutOfOvenQueue, Baked, pizza);
      LineShrinks(packQueue, ToPack, pizza);
      LineGrows(deliverQueue, ToDeliver, pizza);
    }

    /** Delivering the first pizza of the deliver queue keeps the queues' lines and tallies. */
    twostate lemma DeliverServed(pizza: Pizza)
      requires old(Shape() && Lines() && Tallies()) && pizzas == old(pizzas) && unchanged(pizzas - {pizza})
      requires old(deliverQueue.items) != [] && pizza == old(deliverQueue.items)[0] && deliverQueue.items == old(deliverQueue.items)[1..]
      requires deliverQueue.unfinishedTasks == old(deliverQueue.unfinishedTasks) && deliverQueue.finished == old(deliverQueue.finished)
      requires pizza.status == Delivered
      requires delivered == old(delivered) + 1 && dropped == old(dropped)
      requires unchanged(fridgeQueue, makeQueue, putIntoOvenQueue, ovenQueue, takeOutOfOvenQueue, packQueue, ovensSemaphore)
      ensures Shape() && Lines() && Tallies()
    {
      LineKept(fridgeQueue, InFridge, pizza);
      LineKept(makeQueue, ToMake, pizza);
      LineKept(putIntoOvenQueue, Made, pizza);
      LineKept(ovenQueue, InOven, pizza);
      LineKept(takeOutOfOvenQueue, Baked, pizza);
      LineKept(packQueue, ToPack, pizza);
      LineShrinks(deliverQueue, ToDeliver, pizza);
    }

    /** A round keeps every pizza ordered in the queue of its status, unless it was delivered or dropped. */
    twostate lemma PlacedKept(new s: Status, pizza: Pizza)
      requires s != Delivered && old(Placed()) && Served(s, pizza)
      ensures Placed()
    {
      match s
      case InFridge =>
      case ToMake =>
      case Made =>
      case InOven =>
      case Baked =>
      case ToPack =>
      case ToDeliver =>
    }

    /** A drop keeps every other pizza where it was, and the pizza dropped was not dropped before. */
    twostate lemma PlacedDropped(pizza: Pizza)
      requires old(Placed()) && old(Line(makeQueue, ToMake)) && Dropped(pizza)
      ensures Placed() && pizza !in old(dropped)
    {
      DistinctTail(old(makeQueue.items));
    }

    /** A round moves only the pizza it served, and that one exactly one stage on: no stage is skipped and none regresses. */
    twostate lemma OneStageOn(new s: Status, pizza: Pizza)
      requires s != Delivered && Served(s, pizza)
      ensures forall p | p in pizzas :: p.status == old(p.status) || (p == pizza && Index(p.status) == Index(old(p.status)) + 1)
    {
    }

    /** The dispatch rule read off the queues themselves, in the order `do_the_job` tests them. */
    lemma ScanOrder()
      ensures NextJob(Waiting(), ovensSemaphore.Locked()) ==
        if !deliverQueue.Empty() then Some(ToDeliver)
        else if !packQueue.Empty() then Some(ToPack)
        else if !takeOutOfOvenQueue.Empty() then Some(Baked)
        else if !putIntoOvenQueue.Empty() && !ovensSemaphore.Locked() then Some(Made)
        else if !makeQueue.Empty() then Some(ToMake)
        else if !fridgeQueue.Empty() then Some(InFridge)
        else None
    {
      assert ToDeliver in Waiting() <==> !deliverQueue.Empty();
      assert ToPack in Waiting() <==> !packQueue.Empty();
      assert Baked in Waiting() <==> !takeOutOfOvenQueue.Empty();
      assert Made in Waiting() <==> !putIntoOvenQueue.Empty();
      assert ToMake in Waiting() <==> !makeQueue.Empty();
      assert InFridge in Waiting() <==> !fridgeQueue.Empty();
    }

    /** A step that touched none of the kitchen's objects keeps the kitchen valid. */
    twostate lemma Untouched()
      requires old(Valid())
      requires unchanged(this, fridgeQueue, makeQueue, putIntoOvenQueue, ovenQueue, takeOutOfOvenQueue)
      requires unchanged(packQueue, deliverQueue, ovensSemaphore) && unchanged(pizzas)
      ensures Valid()
    {
    }

    // ---------------------------------------------------------- what `main` awaits

    /** Oven permits stay between zero and the number of ovens. */
    lemma PermitsBounded()
      requires Valid()
      ensures 0 <= ovensSemaphore.value <= ovensAmount
      ensures ovensAmount - ovensSemaphore.value == |ovenQueue.items| + |takeOutOfOvenQueue.items|
    {
    }

    /** Once a pizza is ordered, `fridge_queue.join()` can never return: no stage marks its task done. */
    lemma FridgeNeverDrains()
      requires Valid() && pizzas != {}
      ensures !fridgeQueue.finished && fridgeQueue.unfinishedTasks == |pizzas|
    {
    }

    /** All seven joins of `main` return only when no pizza was ever ordered. */
    lemma AllJoinedOnlyWithoutPizzas()
      requires Valid()
      requires fridgeQueue.finished && makeQueue.finished && putIntoOvenQueue.finished && ovenQueue.finished
      requires takeOutOfOvenQueue.finished && packQueue.finished && deliverQueue.finished
      ensures pizzas == {}
    {
    }

    /**
     * The seven `join()` calls at the end of `main`, in its order: `all` says
     * whether every one of them returns without waiting, which happens only
     * when no pizza was ordered.
     */
    method JoinAll() returns (all: bool)
      requires Valid()
      ensures all <==> (makeQueue.finished && fridgeQueue.finished && putIntoOvenQueue.finished
        && takeOutOfOvenQueue.finished && ovenQueue.finished && packQueue.finished && deliverQueue.finished)
      ensures all ==> pizzas == {}
    {
      var make := makeQueue.Join();
      var fridge := fridgeQueue.Join();
      var putIn := putIntoOvenQueue.Join();
      var takeOut := takeOutOfOvenQueue.Join();
      var oven := ovenQueue.Join();
      var pack := packQueue.Join();
      var deliver := deliverQueue.Join();
      all := make && fridge && putIn && takeOut && oven && pack && deliver;
      if all {
        AllJoinedOnlyWithoutPizzas();
      }
    }
  }
}

/** The workers and ovens of app.py, each round an atomic step on the kitchen. */
module AppWorkers {
  import opened PizzaCommon
  import opened App

  /**
   * A worker. A plain `PizzaMaker` has no specialties (`None`); a
   * `PizzaSpecialist` has the set of pizza types it can make.
   */
  class PizzaMaker {
    const number: int
    const specialties: Option<set<string>>
    var activePizza: Pizza?

    /** `PizzaMaker(number)`. */
    constructor (number: int)
      ensures this.number == number && specialties == None && activePizza == null
    {
      this.number := number;
      specialties := None;
      activePizza := null;
    }

    /** `PizzaSpecialist(number, specialties)`. */
    constructor Specialist(number: int, specialties: set<string>)
      ensures this.number == number && this.specialties == Some(specialties) && activePizza == null
    {
      this.number := number;
      this.specialties := Some(specialties);
      activePizza := null;
    }

    /** Whether `make_pizza` goes on for `pizza`: always for a plain worker, only for its specialties for a specialist. */
    predicate CanMake(pizza: Pizza)
    {
      specialties.None? || pizza.pizzaType in specialties.value
    }

    /** `make_busy`: the worker shows `pizza` as its active pizza for `seconds`. */
    method MakeBusy(seconds: nat, pizza: Pizza) returns (busy: nat)
      modifies this
      ensures activePizza == pizza && busy == seconds
    {
      activePizza := pizza;
      busy := seconds;
    }

    /**
     * `get_ingredients_from_fridge`: an urgent pizza goes to the front of the
     * make queue without being counted, any other one to the back by `put`.
     */
    method GetIngredientsFromFridge(pizza: Pizza, k: Kitchen) returns (seconds: nat)
      requires k.makeQueue.Valid()
      modifies this, pizza, k.makeQueue
      ensures pizza.status == ToMake && activePizza == pizza && seconds == 1
      ensures k.makeQueue.Valid()
      ensures k.makeQueue.items == Fetched(old(k.makeQueue.items), pizza)
      ensures pizza.priority == Urgent ==> k.makeQueue.unfinishedTasks == old(k.makeQueue.unfinishedTasks)
      ensures pizza.priority != Urgent ==> k.makeQueue.unfinishedTasks == old(k.makeQueue.unfinishedTasks) + 1
    {
      seconds := MakeBusy(1, pizza);
      pizza.status := ToMake;
      if pizza.priority == Urgent {
        k.makeQueue.AppendLeft(pizza);
      } else {
        k.makeQueue.Put(pizza);
      }
    }

    /**
     * `make_pizza` of the worker's class: the pizza's own make time, then it
     * waits to go into an oven. A specialist returns at once, leaving the
     * pizza, its own active pizza and every queue as they were, for a type it
     * cannot make; the kitchen counts the pizza as dropped.
     */
    method MakePizza(pizza: Pizza, k: Kitchen) returns (seconds: nat)
      requires k.putIntoOvenQueue.Valid()
      modifies this, pizza, k, k.putIntoOvenQueue
      ensures k.putIntoOvenQueue.Valid() && k.pizzas == old(k.pizzas) && k.delivered == old(k.delivered)
      ensures CanMake(pizza) ==> pizza.status == Made && activePizza == pizza && seconds == pizza.preparationTimes.make
      ensures CanMake(pizza) ==> k.putIntoOvenQueue.items == old(k.putIntoOvenQueue.items) + [pizza]
      ensures CanMake(pizza) ==> k.putIntoOvenQueue.unfinishedTasks == old(k.putIntoOvenQueue.unfinishedTasks) + 1
      ensures CanMake(pizza) ==> k.dropped == old(k.dropped)
      ensures !CanMake(pizza) ==> unchanged(this, pizza, k.putIntoOvenQueue) && seconds == 0
      ensures !CanMake(pizza) ==> k.dropped == old(k.dropped) + {pizza}
    {
      if !CanMake(pizza) {
        k.dropped := k.dropped + {pizza};
        return 0;
      }
      seconds := MakeBusy(pizza.preparationTimes.make, pizza);
      pizza.status := Made;
      k.putIntoOvenQueue.Put(pizza);
    }

    /**
     * `make_certain_pizza`, which only a specialist can run: an error message
     * and no change for a type it cannot make, otherwise the same as making it.
     */
    method MakeCertainPizza(pizza: Pizza, k: Kitchen) returns (error: Option<string>, seconds: nat)
      requires specialties.Some? && k.putIntoOvenQueue.Valid()
      modifies this, pizza, k.putIntoOvenQueue
      ensures k.putIntoOvenQueue.Valid()
      ensures error.Some? <==> pizza.pizzaType !in specialties.value
      ensures error.Some? ==> error.value == "Specialist cannot make this pizza type"
      ensures error.Some? ==> unchanged(this, pizza, k.putIntoOvenQueue) && seconds == 0
      ensures error.None? ==> pizza.status == Made && activePizza == pizza && seconds == pizza.preparationTimes.make
      ensures error.None? ==> k.putIntoOvenQueue.items == old(k.putIntoOvenQueue.items) + [pizza]
      ensures error.None? ==> k.putIntoOvenQueue.unfinishedTasks == old(k.putIntoOvenQueue.unfinishedTasks) + 1
    {
      if pizza.pizzaType !in specialties.value {
        return Some("Specialist cannot make this pizza type"), 0;
      }
      seconds := MakeBusy(pizza.preparationTimes.make, pizza);
      pizza.status := Made;
      k.putIntoOvenQueue.Put(pizza);
      error := None;
    }

    /** `put_into_oven`: one oven permit is taken first, then the pizza joins the oven queue. */
    method PutIntoOven(pizza: Pizza, k: Kitchen) returns (seconds: nat)
      requires k.ovenQueue.Valid() && k.ovensSemaphore.value > 0
      modifies this, pizza, k.ovenQueue, k.ovensSemaphore
      ensures pizza.status == InOven && activePizza == pizza && seconds == 1
      ensures k.ovensSemaphore.value == old(k.ovensSemaphore.value) - 1
      ensures k.ovenQueue.Valid() && k.ovenQueue.items == old(k.ovenQueue.items) + [pizza]
      ensures k.ovenQueue.unfinishedTasks == old(k.ovenQueue.unfinishedTasks) + 1
    {
      k.ovensSemaphore.Acquire();
      seconds := MakeBusy(1, pizza);
      pizza.status := InOven;
      k.ovenQueue.Put(pizza);
    }

    /** `take_out_of_oven`: the permit goes back and the pizza goes to packing. */
    method TakeOutOfOven(pizza: Pizza, k: Kitchen) returns (seconds: nat)
      requires k.packQueue.Valid()
      modifies this, pizza, k.packQueue, k.ovensSemaphore
      ensures pizza.status == ToPack && activePizza == pizza && seconds == 1
      ensures k.ovensSemaphore.value == old(k.ovensSemaphore.value) + 1
      ensures k.packQueue.Valid() && k.packQueue.items == old(k.packQueue.items) + [pizza]
      ensures k.packQueue.unfinishedTasks == old(k.packQueue.unfinishedTasks) + 1
    {
      seconds := MakeBusy(1, pizza);
      k.ovensSemaphore.Release();
      pizza.status := ToPack;
      k.packQueue.Put(pizza);
    }

    /** `pack_pizza`: the packed pizza waits for delivery. */
    method PackPizza(pizza: Pizza, k: Kitchen) returns (seconds: nat)
      requires k.deliverQueue.Valid()
      modifies this, pizza, k.deliverQueue
      ensures pizza.status == ToDeliver && activePizza == pizza && seconds == 1
      ensures k.deliverQueue.Valid() && k.deliverQueue.items == old(k.deliverQueue.items) + [pizza]
      ensures k.deliverQueue.unfinishedTasks == old(k.deliverQueue.unfinishedTasks) + 1
    {
      seconds := MakeBusy(1, pizza);
      pizza.status := ToDeliver;
      k.deliverQueue.Put(pizza);
    }

    /** `deliver_pizza`: the pizza is delivered and leaves the queues for good. */
    method DeliverPizza(pizza: Pizza, k: Kitchen) returns (seconds: nat)
      modifies this, pizza, k
      ensures pizza.status == Delivered && activePizza == pizza && seconds == 1
      ensures k.delivered == old(k.delivered) + 1 && k.dropped == old(k.dropped) && k.pizzas == old(k.pizzas)
    {
      seconds := MakeBusy(1, pizza);
      pizza.status := Delivered;
      k.delivered := k.delivered + 1;
    }

    /** The fridge branch of `do_the_job`: the first pizza of the fridge queue gets its ingredients. */
    method ServeFridge(k: Kitchen) returns (pizza: Pizza, seconds: nat)
      requires k.Valid() && k.fridgeQueue.items != []
      modifies this, k.fridgeQueue, k.makeQueue, k.pizzas
      ensures k.Valid() && k.CountsKept()
      ensures pizza == old(k.fridgeQueue.items)[0] && old(pizza.status) == InFridge && pizza.status == ToMake
      ensures k.Served(InFridge, pizza)
      ensures k.pizzas == old(k.pizzas)
      ensures activePizza == pizza && seconds == 1
    {
      var got := k.fridgeQueue.Get();
      pizza := got.value;
      seconds := GetIngredientsFromFridge(pizza, k);
      k.PlacedKept(InFridge, pizza);
      k.FridgeServed(pizza);
    }

    /** The make branch of `do_the_job`: made, or dropped by a specialist that cannot make it. */
    method ServeMake(k: Kitchen) returns (pizza: Pizza, seconds: nat)
      requires k.Valid() && k.makeQueue.items != []
      modifies this, k, k.makeQueue, k.putIntoOvenQueue, k.pizzas
      ensures k.Valid() && k.CountsKept()
      ensures pizza == old(k.makeQueue.items)[0] && old(pizza.status) == ToMake
      ensures k.pizzas == old(k.pizzas)
      ensures CanMake(pizza) ==> k.Served(ToMake, pizza) && activePizza == pizza && seconds == pizza.preparationTimes.make
      ensures !CanMake(pizza) ==> k.Dropped(pizza) && activePizza == old(activePizza) && seconds == 0
    {
      var got := k.makeQueue.Get();
      pizza := got.value;
      seconds := MakePizza(pizza, k);
      if CanMake(pizza) {
        k.PlacedKept(ToMake, pizza);
        k.MakeServed(pizza);
      } else {
        k.PlacedDropped(pizza);
        k.MakeDropped(pizza);
      }
    }

    /** The put-into-oven branch of `do_the_job`, taken only while a permit is free. */
    method ServePutIn(k: Kitchen) returns (pizza: Pizza, seconds: nat)
      requires k.Valid() && k.putIntoOvenQueue.items != [] && k.ovensSemaphore.value > 0
      modifies this, k.putIntoOvenQueue, k.ovenQueue, k.ovensSemaphore, k.pizzas
      ensures k.Valid() && k.CountsKept()
      ensures pizza == old(k.putIntoOvenQueue.items)[0] && old(pizza.status) == Made && pizza.status == InOven
      ensures k.Served(Made, pizza)
      ensures k.pizzas == old(k.pizzas)
      ensures activePizza == pizza && seconds == 1
    {
      var got := k.putIntoOvenQueue.Get();
      pizza := got.value;
      seconds := PutIntoOven(pizza, k);
      k.PlacedKept(Made, pizza);
      k.PutInServed(pizza);
    }

    /** The take-out branch of `do_the_job`. */
    method ServeTakeOut(k: Kitchen) returns (pizza: Pizza, seconds: nat)
      requires k.Valid() && k.takeOutOfOvenQueue.items != []
      modifies this, k.takeOutOfOvenQueue, k.packQueue, k.ovensSemaphore, k.pizzas
      ensures k.Valid() && k.CountsKept()
      ensures pizza == old(k.takeOutOfOvenQueue.items)[0] && old(pizza.status) == Baked && pizza.status == ToPack
      ensures k.Served(Baked, pizza)
      ensures k.pizzas == old(k.pizzas)
      ensures activePizza == pizza && seconds == 1
    {
      var got := k.takeOutOfOvenQueue.Get();
      pizza := got.value;
      seconds := TakeOutOfOven(pizza, k);
      k.PlacedKept(Baked, pizza);
      k.TakeOutServed(pizza);
    }

    /** The pack branch of `do_the_job`. */
    method ServePack(k: Kitchen) returns (pizza: Pizza, seconds: nat)
      requires k.Valid() && k.packQueue.items != []
      modifies this, k.packQueue, k.deliverQueue, k.pizzas
      ensures k.Valid() && k.CountsKept()
      ensures pizza == old(k.packQueue.items)[0] && old(pizza.status) == ToPack && pizza.status == ToDeliver
      ensures k.Served(ToPack, pizza)
      ensures k.pizzas == old(k.pizzas)
      ensures activePizza == pizza && seconds == 1
    {
      var got := k.packQueue.Get();
      pizza := got.value;
      seconds := PackPizza(pizza, k);
      k.PlacedKept(ToPack, pizza);
      k.PackServed(pizza);
    }

    /** The deliver branch of `do_the_job`. */
    method ServeDeliver(k: Kitchen) returns (pizza: Pizza, seconds: nat)
      requires k.Valid() && k.deliverQueue.items != []
      modifies this, k, k.deliverQueue, k.pizzas
      ensures k.Valid() && k.CountsKept()
      ensures pizza == old(k.deliverQueue.items)[0] && old(pizza.status) == ToDeliver && pizza.status == Delivered
      ensures k.Served(ToDeliver, pizza)
      ensures k.pizzas == old(k.pizzas)
      ensures activePizza == pizza && seconds == 1
    {
      var got := k.deliverQueue.Get();
      pizza := got.value;
      seconds := DeliverPizza(pizza, k);
      k.PlacedKept(ToDeliver, pizza);
      k.DeliverServed(pizza);
    }

    /** Whether serving stage `s` moves `pizza` on: every stage does, except a specialist's make stage for a type it cannot make. */
    predicate Moves(s: Status, pizza: Pizza)
    {
      s != ToMake || CanMake(pizza)
    }

    /** How long serving stage `s` keeps the worker busy with `pizza`. */
    function Duration(s: Status, pizza: Pizza): nat
    {
      if s != ToMake then 1 else if CanMake(pizza) then pizza.preparationTimes.make else 0
    }

    /**
     * One round of `do_the_job`: the scan serves the first stage, output end
     * first, whose queue has pizzas and, for put-in, a free permit; otherwise
     * the worker shows no pizza and idles for a second.
     */
    method DoJob(k: Kitchen) returns (job: Option<Status>, seconds: nat)
      requires k.Valid()
      modifies this, k, k.fridgeQueue, k.makeQueue, k.putIntoOvenQueue, k.ovenQueue, k.takeOutOfOvenQueue
      modifies k.packQueue, k.deliverQueue, k.ovensSemaphore, k.pizzas
      ensures k.Valid() && k.pizzas == old(k.pizzas) && k.CountsKept()
      ensures job == NextJob(old(k.Waiting()), old(k.ovensSemaphore.Locked()))
      ensures job.None? ==> activePizza == null && seconds == 1
      ensures job.Some? ==> old(k.QueueFor(job.value).items) != []
      ensures job.Some? ==> var pizza := old(k.QueueFor(job.value).items)[0];
        seconds == Duration(job.value, pizza)
        && if Moves(job.value, pizza) then activePizza == pizza && pizza.status == Next(job.value)
           else activePizza == old(activePizza) && pizza.status == job.value
      ensures job.Some? ==> var pizza := old(k.QueueFor(job.value).items)[0];
        if Moves(job.value, pizza) then k.Served(job.value, pizza) else k.Dropped(pizza)
      ensures job.None? ==> unchanged(k, k.fridgeQueue, k.makeQueue, k.putIntoOvenQueue, k.ovenQueue, k.takeOutOfOvenQueue)
      ensures job.None? ==> unchanged(k.packQueue, k.deliverQueue, k.ovensSemaphore) && unchanged(k.pizzas)
    {
      if !k.deliverQueue.Empty() || !k.packQueue.Empty() || !k.takeOutOfOvenQueue.Empty() {
        job, seconds := DoJobAfterOven(k);
      } else {
        job, seconds := DoJobBeforeOven(k);
      }
    }

    /** The scan's first half, when something waits after the ovens: deliver, pack, else take-out. */
    method DoJobAfterOven(k: Kitchen) returns (job: Option<Status>, seconds: nat)
      requires !k.deliverQueue.Empty() || !k.packQueue.Empty() || !k.takeOutOfOvenQueue.Empty()
      requires k.Valid()
      modifies this, k, k.fridgeQueue, k.makeQueue, k.putIntoOvenQueue, k.ovenQueue, k.takeOutOfOvenQueue
      modifies k.packQueue, k.deliverQueue, k.ovensSemaphore, k.pizzas
      ensures k.Valid() && k.pizzas == old(k.pizzas) && k.CountsKept()
      ensures job == NextJob(old(k.Waiting()), old(k.ovensSemaphore.Locked()))
      ensures job.None? ==> activePizza == null && seconds == 1
      ensures job.Some? ==> old(k.QueueFor(job.value).items) != []
      ensures job.Some? ==> var pizza := old(k.QueueFor(job.value).items)[0];
        seconds == Duration(job.value, pizza)
        && if Moves(job.value, pizza) then activePizza == pizza && pizza.status == Next(job.value)
           else activePizza == old(activePizza) && pizza.status == job.value
      ensures job.Some? ==> var pizza := old(k.QueueFor(job.value).items)[0];
        if Moves(job.value, pizza) then k.Served(job.value, pizza) else k.Dropped(pizza)
      ensures job.None? ==> unchanged(k, k.fridgeQueue, k.makeQueue, k.putIntoOvenQueue, k.ovenQueue, k.takeOutOfOvenQueue)
      ensures job.None? ==> unchanged(k.packQueue, k.deliverQueue, k.ovensSemaphore) && unchanged(k.pizzas)
    {
      k.ScanOrder();
      var pizza: Pizza;
      if !k.deliverQueue.Empty() {
        pizza, seconds := ServeDeliver(k);
        job := Some(ToDeliver);
        assert pizza == old(k.QueueFor(job.value).items)[0] && Moves(job.value, pizza);
      } else if !k.packQueue.Empty() {
        pizza, seconds := ServePack(k);
        job := Some(ToPack);
        assert pizza == old(k.QueueFor(job.value).items)[0] && Moves(job.value, pizza);
      } else {
        pizza, seconds := ServeTakeOut(k);
        job := Some(Baked);
        assert pizza == old(k.QueueFor(job.value).items)[0] && Moves(job.value, pizza);
      }
    }

    /** The rest of the scan, once nothing waits after the ovens: put-in, make, fridge, else idle. */
    method DoJobBeforeOven(k: Kitchen) returns (job: Option<Status>, seconds: nat)
      requires k.deliverQueue.Empty() && k.packQueue.Empty() && k.takeOutOfOvenQueue.Empty()
      requires k.Valid()
      modifies this, k, k.fridgeQueue, k.makeQueue, k.putIntoOvenQueue, k.ovenQueue, k.takeOutOfOvenQueue
      modifies k.packQueue, k.deliverQueue, k.ovensSemaphore, k.pizzas
      ensures k.Valid() && k.pizzas == old(k.pizzas) && k.CountsKept()
      ensures job == NextJob(old(k.Waiting()), old(k.ovensSemaphore.Locked()))
      ensures job.None? ==> activePizza == null && seconds == 1
      ensures job.Some? ==> old(k.QueueFor(job.value).items) != []
      ensures job.Some? ==> var pizza := old(k.QueueFor(job.value).items)[0];
        seconds == Duration(job.value, pizza)
        && if Moves(job.value, pizza) then activePizza == pizza && pizza.status == Next(job.value)
           else activePizza == old(activePizza) && pizza.status == job.value
      ensures job.Some? ==> var pizza := old(k.QueueFor(job.value).items)[0];
        if Moves(job.value, pizza) then k.Served(job.value, pizza) else k.Dropped(pizza)
      ensures job.None? ==> unchanged(k, k.fridgeQueue, k.makeQueue, k.putIntoOvenQueue, k.ovenQueue, k.takeOutOfOvenQueue)
      ensures job.None? ==> unchanged(k.packQueue, k.deliverQueue, k.ovensSemaphore) && unchanged(k.pizzas)
    {
      k.ScanOrder();
      var pizza: Pizza;
      if !k.putIntoOvenQueue.Empty() && !k.ovensSemaphore.Locked() {
        pizza, seconds := ServePutIn(k);
        job := Some(Made);
        assert pizza == old(k.QueueFor(job.value).items)[0] && Moves(job.value, pizza);
      } else if !k.makeQueue.Empty() {
        pizza, seconds := ServeMake(k);
        job := Some(ToMake);
        assert pizza == old(k.QueueFor(job.value).items)[0];
      } else if !k.fridgeQueue.Empty() {
        pizza, seconds := ServeFridge(k);
        job := Some(InFridge);
        assert pizza == old(k.QueueFor(job.value).items)[0] && Moves(job.value, pizza);
      } else {
        label idle:
        activePizza := null;
        k.Untouched@idle();
        seconds := 1;
        job := None;
      }
    }

    /** `do_the_job` for a number of rounds, after which the task is cancelled. */
    method DoTheJob(k: Kitchen, rounds: nat)
      requires k.Valid()
      modifies this, k, k.fridgeQueue, k.makeQueue, k.putIntoOvenQueue, k.ovenQueue, k.takeOutOfOvenQueue
      modifies k.packQueue, k.deliverQueue, k.ovensSemaphore, k.pizzas
      ensures k.Valid() && k.pizzas == old(k.pizzas) && k.CountsKept()
    {
      var i := 0;
      while i < rounds
        invariant k.Valid() && k.pizzas == old(k.pizzas) && k.CountsKept()
      {
        var job, seconds := DoJob(k);
        i := i + 1;
      }
    }
  }

  /** An oven: it bakes the first pizza of the oven queue. */
  class Oven {
    constructor ()
    {
    }

    /** The body of the oven's loop once a pizza was taken: a fixed four seconds in the oven, whatever its type, then it waits to be taken out. */
    method Bake(pizza: Pizza, k: Kitchen) returns (seconds: nat)
      requires k.takeOutOfOvenQueue.Valid()
      modifies pizza, k.takeOutOfOvenQueue
      ensures pizza.status == Baked && seconds == 4
      ensures k.takeOutOfOvenQueue.Valid() && k.takeOutOfOvenQueue.items == old(k.takeOutOfOvenQueue.items) + [pizza]
      ensures k.takeOutOfOvenQueue.unfinishedTasks == old(k.takeOutOfOvenQueue.unfinishedTasks) + 1
    {
      seconds := 4;
      pizza.status := Baked;
      k.takeOutOfOvenQueue.Put(pizza);
    }

    /** The baking branch of `Oven.do_the_job`: the first pizza of the oven queue is baked. */
    method ServeOven(k: Kitchen) returns (pizza: Pizza, seconds: nat)
      requires k.Valid() && k.ovenQueue.items != []
      modifies k.ovenQueue, k.takeOutOfOvenQueue, k.pizzas
      ensures k.Valid() && k.CountsKept()
      ensures pizza == old(k.ovenQueue.items)[0] && old(pizza.status) == InOven && pizza.status == Baked
      ensures k.Served(InOven, pizza)
      ensures seconds == 4
    {
      var got := k.ovenQueue.Get();
      pizza := got.value;
      seconds := Bake(pizza, k);
      k.PlacedKept(InOven, pizza);
      k.BakeServed(pizza);
    }

    /** One round of `Oven.do_the_job`: bake the first pizza of the oven queue, or wait a tenth of a second. */
    method Step(k: Kitchen) returns (baked: Option<Pizza>, seconds: real)
      requires k.Valid()
      modifies k.ovenQueue, k.takeOutOfOvenQueue, k.pizzas
      ensures k.Valid() && k.CountsKept()
      ensures baked.None? <==> old(k.ovenQueue.items) == []
      ensures baked.None? ==> seconds == 0.1 && unchanged(k.ovenQueue, k.takeOutOfOvenQueue, k.pizzas)
      ensures baked.Some? ==> baked.value == old(k.ovenQueue.items)[0] && seconds == 4.0
      ensures baked.Some? ==> old(baked.value.status) == InOven && baked.value.status == Baked
      ensures baked.Some? ==> k.Served(InOven, baked.value)
    {
      if k.ovenQueue.Empty() {
        baked, seconds := None, 0.1;
      } else {
        var pizza, busy := ServeOven(k);
        baked, seconds := Some(pizza), busy as real;
      }
    }

    /** `Oven.do_the_job` for a number of rounds, after which the task is cancelled. */
    method DoTheJob(k: Kitchen, rounds: nat)
      requires k.Valid()
      modifies k.ovenQueue, k.takeOutOfOvenQueue, k.pizzas
      ensures k.Valid() && k.CountsKept()
    {
      for i := 0 to rounds
        invariant k.Valid() && k.CountsKept()
      {
        var baked, seconds := Step(k);
      }
    }
  }

  /** `[Oven() for _ in range(ovens_amount)]`. */
  method NewOvens(ovensAmount: nat) returns (ovens: seq<Oven>)
    ensures |ovens| == ovensAmount
  {
    ovens := [];
    for i := 0 to ovensAmount
      invariant |ovens| == i
    {
      var oven := new Oven();
      ovens := ovens + [oven];
    }
  }

  /** `[PizzaMaker(i+1) for i in range(workers_amount)]`: idle plain workers numbered from 1. */
  method NewWorkers(workersAmount: nat) returns (workers: seq<PizzaMaker>)
    ensures |workers| == workersAmount
    ensures forall i :: 0 <= i < |workers| ==>
      workers[i].number == i + 1 && workers[i].specialties == None && workers[i].activePizza == null && fresh(workers[i])
  {
    workers := [];
    for i := 0 to workersAmount
      invariant |workers| == i
      invariant forall j :: 0 <= j < i ==>
        workers[j].number == j + 1 && workers[j].specialties == None && workers[j].activePizza == null && fresh(workers[j])
    {
      var worker := new PizzaMaker(i + 1);
      workers := workers + [worker];
    }
  }

  /** `[Pizza(i+1) for i in range(pizza_amount)]`: normal Pepperoni pizzas numbered from 1, all in the fridge and all different objects. */
  method NewPizzas(pizzaAmount: nat) returns (pizzas: seq<Pizza>)
    ensures |pizzas| == pizzaAmount && Distinct(pizzas)
    ensures forall i :: 0 <= i < |pizzas| ==>
      pizzas[i].number == i + 1 && pizzas[i].pizzaType == DEFAULT_TYPE && pizzas[i].priority == Normal
      && pizzas[i].preparationTimes == Times(3, 4, 2) && pizzas[i].status == InFridge && fresh(pizzas[i])
  {
    pizzas := [];
    for i := 0 to pizzaAmount
      invariant |pizzas| == i && Distinct(pizzas)
      invariant forall j :: 0 <= j < i ==>
        pizzas[j].number == j + 1 && pizzas[j].pizzaType == DEFAULT_TYPE && pizzas[j].priority == Normal
        && pizzas[j].preparationTimes == Times(3, 4, 2) && pizzas[j].status == InFridge && fresh(pizzas[j])
    {
      var pizza := new Pizza(i + 1, DEFAULT_TYPE, Normal);
      DistinctAppend(pizzas, pizza);
      pizzas := pizzas + [pizza];
    }
  }

  /**
   * The kitchen side of `main`'s set-up: the queues, the ovens' semaphore,
   * and the pizzas, each put into the fridge queue in order.
   */
  method OpenKitchen(ovensAmount: nat, pizzaAmount: nat) returns (k: Kitchen, pizzas: seq<Pizza>)
    ensures k.Valid() && k.ovensAmount == ovensAmount && k.ovensSemaphore.value == ovensAmount
    ensures |pizzas| == pizzaAmount
    ensures forall i :: 0 <= i < |pizzas| ==> pizzas[i].number == i + 1 && pizzas[i].pizzaType == DEFAULT_TYPE
    ensures k.pizzas == Members(pizzas) && k.fridgeQueue.items == pizzas && k.fridgeQueue.unfinishedTasks == |pizzas|
    ensures k.makeQueue.Idle() && k.putIntoOvenQueue.Idle() && k.ovenQueue.Idle()
    ensures k.takeOutOfOvenQueue.Idle() && k.packQueue.Idle() && k.deliverQueue.Idle()
    ensures fresh(k) && fresh(k.fridgeQueue) && fresh(k.makeQueue) && fresh(k.putIntoOvenQueue) && fresh(k.ovenQueue)
    ensures fresh(k.takeOutOfOvenQueue) && fresh(k.packQueue) && fresh(k.deliverQueue) && fresh(k.ovensSemaphore)
    ensures forall i :: 0 <= i < |pizzas| ==> fresh(pizzas[i])
  {
    pizzas := NewPizzas(pizzaAmount);
    k := new Kitchen(ovensAmount);
    k.OrderAll(pizzas);
  }
}
