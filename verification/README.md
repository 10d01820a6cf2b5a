# Pizza factory scheduler, modelled in Dafny

Two small asyncio programs simulate a pizza factory. Pizzas pass through seven
stage queues:

- fridge
- make
- put into oven
- oven
- take out of oven
- pack
- deliver

Workers repeatedly serve the first non-empty queue, scanning from the output
end: deliver, pack, take-out, put-in, make, fridge. The put-in stage is served
only while an oven permit is free. Ovens bake whatever is in the oven queue.
A counting semaphore stands for the ovens: a permit is taken at put-in and given
back at take-out.

- `implement_order_priority.py` uses its own `PriorityQueue`. Urgent pizzas
  are served before normal ones, in FIFO order within each class. Every stage
  but take-out marks its own queue's task done; take-out marks the oven
  queue's task done instead (line 97), so the oven queue is marked done twice
  per pizza and the take-out queue never.
- `app.py` uses plain FIFO `asyncio.Queue`s. It also has:
  - a per-type time table;
  - urgent pizzas pushed to the front of the make queue with `appendleft`;
  - a specialist worker that drops pizzas it cannot make;
  - no `task_done` anywhere.

The model is imperative, as the programs are:

- Queues, pizzas, workers, ovens and the kitchen that wires them together are
  classes whose methods update fields in place.
- One worker round (`do_the_job`'s scan, a `get`, then the stage method) is one
  atomic method call.
- One oven round likewise.

Between rounds, each kitchen keeps an invariant `Kitchen.Valid`:

- every queue holds distinct pizzas, all with the status of its stage;
- the unfinished-task counters equal what the code's `put`/`task_done` calls
  imply;
- oven permits are conserved;
- every ordered pizza waits in the queue of its status, and so in no other
  queue, unless it was delivered or (in `app.py`) dropped by a specialist; a
  dropped pizza keeps the status `to_make` but waits in no queue.

A twostate predicate `Kitchen.Served(s, pizza)` states the whole new state of a
round that serves stage `s`:

- `pizza` was the first pizza `get` hands out from that stage's queue, and
  the queue keeps the rest in order;
- it moves exactly one status on and joins the next stage's queue as that
  stage's `put` (or, in `app.py`, the urgent `appendleft`) leaves it;
- the counters change as the code's calls change them, and put-in takes a
  permit and take-out gives it back;
- no other queue and no other pizza changes.

In `app.py`, `Kitchen.Dropped(pizza)` does the same for a specialist's drop.

Files:

- `pizza_common.dfy`: the statuses, the dispatch rule and the semaphore, which
  both programs share, plus sequence helpers.
- `order_priority.dfy`: `implement_order_priority.py`.
- `app.dfy`: `app.py`.

Points of the code's behaviour worth noting:

- A specialist drops a pizza it cannot make; it does not put it back.
- The oven always bakes for 4 seconds, whatever the type.
- In `implement_order_priority.py`, making takes a fixed 2 seconds.
- The completion counters do not drain:
  - `implement_order_priority.py` marks the oven queue done twice per pizza and
    never marks the take-out queue done;
  - `app.py` never calls `task_done`.

  Lemmas record what this does to the final `join`s. In
  `implement_order_priority.py` these are awaited one after another, so each
  can pass at a moment when the next stages are still idle. `main` can then
  get past all seven while a pizza is unfinished, and cancel the workers.
  Once a pizza has left an oven, the take-out queue's `join` can no longer
  return.

## Model

| member | source | states |
|---|---|---|
| PizzaCommon.Index | implement_order_priority.py:12-21 | `STATUSES.index(s)` is a position in the tuple holding `s` |
| PizzaCommon.Next | implement_order_priority.py:12-21 | the status a stage moves a pizza to is the next entry of `STATUSES`, one position on |
| PizzaCommon.AllListed | implement_order_priority.py:12-21 | every status occurs in `STATUSES` |
| PizzaCommon.NextJob | implement_order_priority.py:110-132 | the scan picks an eligible stage (queue non-empty, not the ovens' queue, put-in only when not locked), the latest one in `STATUSES` among the eligible ones, and nothing exactly when no stage is eligible |
| PizzaCommon.Semaphore.constructor | implement_order_priority.py:184 | `Semaphore(ovens_amount)` starts with that many permits |
| PizzaCommon.Semaphore.Locked | implement_order_priority.py:121 | `locked()` is true exactly when no permit is left |
| PizzaCommon.Semaphore.Acquire | implement_order_priority.py:86 | acquiring an unlocked semaphore takes one permit |
| PizzaCommon.Semaphore.Release | implement_order_priority.py:94 | releasing gives one permit back |
| OrderPriority.Pizza.constructor | implement_order_priority.py:7-10 | a new pizza has its id and priority and is `in_fridge` |
| OrderPriority.OfPriority | implement_order_priority.py:32-36 | the pizzas of one priority class, never more than were given: each of that class and taken from the input, and every pizza of that class in the input is among them |
| OrderPriority.PutsSortByPriority | implement_order_priority.py:32-36 | every pizza put lands in exactly one of the two lists; both are empty only when nothing was put |
| OrderPriority.OwnClass | implement_order_priority.py:32-36 | one `put` adds the pizza to the list of its class: the class filter of that single pizza |
| OrderPriority.ClassGrows | implement_order_priority.py:192 | putting the pizzas in order leaves each list holding its class among the pizzas put so far, in order |
| OrderPriority.AppendedInOrder | implement_order_priority.py:32-39 | after `put` an urgent pizza is served after the waiting urgent ones but before every normal one, a normal pizza last; a new pizza keeps both lists free of repetitions |
| OrderPriority.PoppedInOrder | implement_order_priority.py:41-47 | `get` returns the first of urgent-then-normal and the rest keep their order; it returns an urgent pizza exactly when one waits; the pizza served no longer waits |
| OrderPriority.AppendedKeeps | implement_order_priority.py:32-39 | after `put` the new item and every pizza that was waiting are waiting |
| OrderPriority.PoppedKeeps | implement_order_priority.py:41-47 | after `get` every pizza that was waiting, except the one handed out, is still waiting |
| OrderPriority.PriorityQueue.constructor | implement_order_priority.py:25-30 | a new queue has empty lists, count 0 and the `finished` event set |
| OrderPriority.PriorityQueue.Put | implement_order_priority.py:32-39 | the item joins the back of its class's list, the other list is unchanged, the count grows by one and the event is cleared |
| OrderPriority.PriorityQueue.Get | implement_order_priority.py:41-47 | urgent head first, else normal head, else `QueueEmpty` (`None`) exactly when both lists are empty; count and event unchanged |
| OrderPriority.PriorityQueue.TaskDone | implement_order_priority.py:49-52 | the count drops by one with no lower bound; the event is set when it reaches zero; lists unchanged |
| OrderPriority.PriorityQueue.Join | implement_order_priority.py:54-55 | `join` returns at once only when no task is unfinished |
| OrderPriority.PriorityQueue.Empty | implement_order_priority.py:57-58 | `empty()` exactly when neither list holds a pizza |
| OrderPriority.Kitchen.constructor | implement_order_priority.py:151-157 | seven new empty queues and a semaphore with `ovens_amount` permits form a valid kitchen with no pizzas; every queue starts idle, counting nothing, with its event set |
| OrderPriority.Kitchen.Opened | implement_order_priority.py:151-157 | the empty kitchen satisfies the invariant |
| OrderPriority.Kitchen.Order | implement_order_priority.py:192 | `fridge_queue.put(pizza)` of a new pizza adds it to its class's list of the fridge queue, counts it, and keeps the kitchen valid |
| OrderPriority.Kitchen.OrderAll | implement_order_priority.py:190-196 | putting all pizzas into the fridge queue leaves exactly the urgent ones in order in one list and the normal ones in order in the other, counted, with the kitchen valid |
| OrderPriority.Kitchen.OrderNext | implement_order_priority.py:192 | one more pizza put keeps the fridge lists equal to the class filters of the pizzas put so far |
| OrderPriority.Kitchen.Seeded | implement_order_priority.py:192 | a new pizza in the fridge queue keeps every stage queue matching its stage and every tally |
| OrderPriority.Kitchen.SeedTallies | implement_order_priority.py:192 | a new pizza in the fridge queue keeps the counters and the population tally |
| OrderPriority.Kitchen.SeedLine | implement_order_priority.py:192 | the fridge queue with the new pizza still holds distinct `in_fridge` pizzas |
| OrderPriority.Kitchen.LineWidened | implement_order_priority.py:192 | a queue nobody touched still matches its stage when a pizza is added to the kitchen |
| OrderPriority.Kitchen.LineKept | implement_order_priority.py:110-132 | a queue a step did not touch still matches its stage when another stage's pizza changes |
| OrderPriority.Kitchen.LineShrinks | implement_order_priority.py:110-132 | the queue a pizza was taken from still matches its stage, and the pizza had that stage's status |
| OrderPriority.Kitchen.LineGrows | implement_order_priority.py:110-132 | the queue a pizza was put into matches its stage, the status the pizza now has |
| OrderPriority.Kitchen.FridgeServed | implement_order_priority.py:73-77 | fetching a pizza to the make queue and marking the fridge queue done keeps every queue matching its stage, the counters and the population tally |
| OrderPriority.Kitchen.MakeServed | implement_order_priority.py:79-83 | making a pizza keeps every queue matching its stage, the counters and the population tally |
| OrderPriority.Kitchen.PutInServed | implement_order_priority.py:85-90 | putting a pizza into an oven, with one permit taken, keeps every queue matching its stage, the counters and the permit and population tallies |
| OrderPriority.Kitchen.BakeServed | implement_order_priority.py:141-146 | an oven baking a pizza and marking the oven queue done keeps every queue matching its stage, the counters and the population tally |
| OrderPriority.Kitchen.TakeOutServed | implement_order_priority.py:92-97 | taking a pizza out, with its permit given back and the oven queue marked done a second time, keeps every queue matching its stage, the counters and the permit and population tallies |
| OrderPriority.Kitchen.PackServed | implement_order_priority.py:99-103 | packing a pizza keeps every queue matching its stage, the counters and the population tally |
| OrderPriority.Kitchen.DeliverServed | implement_order_priority.py:105-108 | delivering a pizza keeps every queue matching its stage, the counters and the population tally, with one more pizza delivered |
| OrderPriority.Kitchen.PlacedKept | implement_order_priority.py:110-132 | a round keeps every ordered pizza waiting in the queue of its status, unless it was delivered |
| OrderPriority.Kitchen.OneStageOn | implement_order_priority.py:110-132 | a round changes the status of the pizza it served only, and that one exactly one stage on: none is skipped and none regresses |
| OrderPriority.Kitchen.ScanOrder | implement_order_priority.py:110-132 | the `empty()`/`locked()` tests in source order choose the same stage as the dispatch rule |
| OrderPriority.Kitchen.Untouched | implement_order_priority.py:130-132 | an idle round keeps the kitchen valid |
| OrderPriority.Kitchen.PermitsBounded | implement_order_priority.py:85-97 | permits stay in [0, ovens], and ovens minus permits is the number of pizzas between put-in and take-out |
| OrderPriority.Kitchen.JoinedExactlyWhenEmpty | implement_order_priority.py:198-204 | the fridge, make, put-in, pack and deliver queues are joined exactly when empty |
| OrderPriority.Kitchen.TakeOutQueueNeverDrains | implement_order_priority.py:92-97 | once a pizza is out of an oven, the take-out queue's `join` can never return |
| OrderPriority.Kitchen.OvenQueueCountedTwice | implement_order_priority.py:92-97 | the oven queue's count is its length minus the pizzas taken out, so it goes negative |
| OrderPriority.Kitchen.AllJoinedOnlyWithoutPizzas | implement_order_priority.py:198-204 | at any one moment, the seven events are all set only when no pizza was ordered |
| OrderPriority.Kitchen.JoinAll | implement_order_priority.py:198-204 | the seven joins, taken at one moment, all return exactly when every event is set, and then no pizza was ordered |
| OrderPriority.Kitchen.LastFetchJoins | implement_order_priority.py:73-77 | a fetch that marks the fridge queue's last task done, while the five queues after the make queue are idle, leaves the fridge queue and those five with their events set |
| OrderPriorityWorkers.PizzaMaker.constructor | implement_order_priority.py:62-65 | a new worker has its number and no active pizza |
| OrderPriorityWorkers.PizzaMaker.MakeBusy | implement_order_priority.py:67-71 | the worker shows the pizza as active for the given seconds |
| OrderPriorityWorkers.PizzaMaker.GetIngredientsFromFridge | implement_order_priority.py:73-77 | status `to_make`, put into the make queue, fridge queue marked done, 1 second |
| OrderPriorityWorkers.PizzaMaker.MakePizza | implement_order_priority.py:79-83 | status `made`, put into the put-in queue, make queue marked done, 2 seconds |
| OrderPriorityWorkers.PizzaMaker.PutIntoOven | implement_order_priority.py:85-90 | one permit taken, status `in_oven`, put into the oven queue, put-in queue marked done |
| OrderPriorityWorkers.PizzaMaker.TakeOutOfOven | implement_order_priority.py:92-97 | permit given back, status `to_pack`, put into the pack queue, the oven queue (not the take-out queue) marked done |
| OrderPriorityWorkers.PizzaMaker.PackPizza | implement_order_priority.py:99-103 | status `to_deliver`, put into the deliver queue, pack queue marked done |
| OrderPriorityWorkers.PizzaMaker.DeliverPizza | implement_order_priority.py:105-108 | status `delivered`, deliver queue marked done |
| OrderPriorityWorkers.PizzaMaker.ServeFridge | implement_order_priority.py:127-129 | the first pizza `get` hands out from the fridge queue (urgent first) moves from `in_fridge` to `to_make` and is put into the make queue; the fridge queue is marked done; no other queue or pizza changes (`Served`); the kitchen stays valid; 1 second |
| OrderPriorityWorkers.PizzaMaker.ServeMake | implement_order_priority.py:124-126 | the first pizza of the make queue moves from `to_make` to `made` and is put into the put-in queue; the make queue is marked done; no other queue or pizza changes (`Served`); the kitchen stays valid; 2 seconds |
| OrderPriorityWorkers.PizzaMaker.ServePutIn | implement_order_priority.py:121-123 | with a free permit, the first waiting pizza moves from `made` to `in_oven` and is put into the oven queue, with one permit taken and the put-in queue marked done; no other queue or pizza changes (`Served`); the kitchen stays valid |
| OrderPriorityWorkers.PizzaMaker.ServeTakeOut | implement_order_priority.py:118-120 | the first baked pizza moves to `to_pack` and is put into the pack queue, its permit given back and the oven queue (not the take-out queue) marked done; no other queue or pizza changes (`Served`); the kitchen stays valid |
| OrderPriorityWorkers.PizzaMaker.ServePack | implement_order_priority.py:115-117 | the first pizza of the pack queue moves to `to_deliver` and is put into the deliver queue; the pack queue is marked done; no other queue or pizza changes (`Served`); the kitchen stays valid |
| OrderPriorityWorkers.PizzaMaker.ServeDeliver | implement_order_priority.py:112-114 | the first pizza of the deliver queue is delivered and the deliver queue marked done; no other queue or pizza changes (`Served`); the kitchen stays valid |
| OrderPriorityWorkers.PizzaMaker.DoJob | implement_order_priority.py:110-132 | one round serves the stage the dispatch rule picks from the state before it: that queue's first pizza moves exactly one status on into the next queue and nothing else changes (`Served`), or the worker idles with no active pizza and the kitchen unchanged; the kitchen stays valid |
| OrderPriorityWorkers.PizzaMaker.DoJobAfterOven | implement_order_priority.py:112-120 | the deliver, pack and take-out branches of the scan meet the round's contract |
| OrderPriorityWorkers.PizzaMaker.DoJobBeforeOven | implement_order_priority.py:121-132 | the put-in, make, fridge and idle branches of the scan meet the round's contract |
| OrderPriorityWorkers.PizzaMaker.DoTheJob | implement_order_priority.py:110-132 | any number of rounds keeps the kitchen valid and its pizzas unchanged |
| OrderPriorityWorkers.Oven.Bake | implement_order_priority.py:142-146 | status `baked` after 4 seconds, put into the take-out queue, oven queue marked done |
| OrderPriorityWorkers.Oven.ServeOven | implement_order_priority.py:141-146 | the first pizza of the oven queue moves from `in_oven` to `baked` and is put into the take-out queue; the oven queue is marked done; no other queue or pizza changes (`Served`); the kitchen stays valid |
| OrderPriorityWorkers.Oven.Step | implement_order_priority.py:139-148 | bakes the first pizza of a non-empty oven queue for 4 seconds, changing nothing else (`Served`), else waits 0.1 seconds and changes nothing |
| OrderPriorityWorkers.Oven.DoTheJob | implement_order_priority.py:139-148 | any number of oven rounds keeps the kitchen valid |
| OrderPriorityWorkers.NewOvens | implement_order_priority.py:183 | `ovens_amount` ovens |
| OrderPriorityWorkers.NewWorkers | implement_order_priority.py:185 | new workers numbered from 1, none with an active pizza |
| OrderPriorityWorkers.NewPizzas | implement_order_priority.py:190 | distinct new pizzas numbered from 1 with the given priorities, all `in_fridge` |
| OrderPriorityWorkers.OpenKitchen | implement_order_priority.py:183-196 | after set-up the kitchen is new and valid with all permits free; the fridge queue holds the new urgent pizzas then the new normal ones, each in order, all counted; every other queue is idle |
| OrderPriorityWorkers.JoinsPassWithPizzaInFlight | implement_order_priority.py:196-204 | with one pizza, one worker and one oven, the make join passes once the pizza is ordered, and the other six pass once the worker has fetched the ingredients, while the pizza is still `to_make` |
| App.PizzaTypes | app.py:7-11 | exactly the three listed types have times, and all of them are positive |
| App.Pizza.constructor | app.py:13-18 | a new pizza has its number, type and priority, the times of its type, and is `in_fridge` |
| App.NewPizza | app.py:13-18 | constructing fails (`KeyError`) exactly for a type not in the table; otherwise the pizza gets its type's times |
| App.Queue.constructor | app.py:135-142 | a new queue is empty, counts nothing and has its event set |
| App.Queue.Put | app.py:50 | the item joins the back, the count grows by one and the event is cleared |
| App.Queue.AppendLeft | app.py:48 | the item goes to the front; count and event unchanged |
| App.Queue.Get | app.py:85-104 | the first item leaves and the rest keep their order; `None` (waiting) exactly when empty; count and event unchanged |
| App.Queue.Empty | app.py:85-104 | `empty()` exactly when no item waits |
| App.Queue.Join | app.py:185-191 | `join` returns at once exactly when no task is unfinished |
| App.OfPriority | app.py:47-50 | the pizzas of one priority, never more than were given: each of that priority and taken from the input, and every pizza of that priority in the input is among them |
| App.FetchOrder | app.py:44-50 | after fetching pizzas in order, the make queue holds the urgent ones with the last fetched first, then the pizzas already waiting, then the normal ones in fetch order |
| App.UrgentFetched | app.py:47-48 | an urgent pizza goes in front of every urgent pizza fetched before it |
| App.NormalFetched | app.py:49-50 | a normal pizza goes behind every normal pizza fetched before it |
| App.Kitchen.constructor | app.py:135-142 | seven new empty queues and a semaphore with `ovens_amount` permits form a valid kitchen with no pizzas; every queue starts idle, counting nothing, with its event set |
| App.Kitchen.Opened | app.py:135-142 | the empty kitchen satisfies the invariant |
| App.Kitchen.Order | app.py:179 | `fridge_queue.put(pizza)` of a new pizza adds it at the back, counts it, and keeps the kitchen valid |
| App.Kitchen.OrderAll | app.py:177-183 | putting all pizzas into the fridge queue appends exactly them, in order, counted, with the kitchen valid |
| App.Kitchen.OrderNext | app.py:179 | one more pizza put keeps the fridge queue equal to the pizzas put so far |
| App.Kitchen.Seeded | app.py:179 | a new pizza in the fridge queue keeps every queue matching its stage and every tally |
| App.Kitchen.SeedLine | app.py:179 | the fridge queue with the new pizza still holds distinct `in_fridge` pizzas |
| App.Kitchen.LineWidened | app.py:179 | a queue nobody touched still matches its stage when a pizza is added to the kitchen |
| App.Kitchen.LineKept | app.py:85-107 | a queue a step did not touch still matches its stage when another stage's pizza changes |
| App.Kitchen.LineShrinks | app.py:85-107 | the queue a pizza was taken from still matches its stage, and the pizza had that stage's status |
| App.Kitchen.LineGrows | app.py:85-107 | the queue a pizza was put into, at the back or at the front, matches the status the pizza now has |
| App.Kitchen.FridgeServed | app.py:44-50 | fetching a pizza to the back or the front of the make queue keeps every queue matching its stage, the counters and the population tally |
| App.Kitchen.MakeServed | app.py:52-55 | making a pizza keeps every queue matching its stage, the counters and the population tally |
| App.Kitchen.MakeDropped | app.py:114-117 | a pizza a specialist drops keeps its status and is in no queue any more; every queue still matches its stage and the tallies hold with one more pizza dropped |
| App.Kitchen.PutInServed | app.py:64-68 | putting a pizza into an oven, with one permit taken, keeps every queue matching its stage, the counters and the permit and population tallies |
| App.Kitchen.BakeServed | app.py:126-130 | an oven baking a pizza keeps every queue matching its stage, the counters and the population tally |
| App.Kitchen.TakeOutServed | app.py:70-74 | taking a pizza out, with its permit given back, keeps every queue matching its stage, the counters and the permit and population tallies |
| App.Kitchen.PackServed | app.py:76-79 | packing a pizza keeps every queue matching its stage, the counters and the population tally |
| App.Kitchen.DeliverServed | app.py:81-83 | delivering a pizza keeps every queue matching its stage, the counters and the population tally, with one more pizza delivered |
| App.Kitchen.PlacedKept | app.py:85-107 | a round keeps every ordered pizza waiting in the queue of its status, unless it was delivered or dropped |
| App.Kitchen.PlacedDropped | app.py:114-117 | a drop keeps every ordered pizza placed as the invariant says, and the pizza dropped had not been dropped before |
| App.Kitchen.OneStageOn | app.py:85-107 | a round changes the status of the pizza it served only, and that one exactly one stage on: none is skipped and none regresses |
| App.Kitchen.ScanOrder | app.py:85-107 | the `empty()`/`locked()` tests in source order choose the same stage as the dispatch rule |
| App.Kitchen.Untouched | app.py:105-107 | an idle round keeps the kitchen valid |
| App.Kitchen.PermitsBounded | app.py:64-74 | permits stay in [0, ovens], and ovens minus permits is the number of pizzas between put-in and take-out |
| App.Kitchen.FridgeNeverDrains | app.py:183-186 | once a pizza is ordered, the fridge queue's count is the number of pizzas ordered and its `join` never returns |
| App.Kitchen.AllJoinedOnlyWithoutPizzas | app.py:185-191 | all seven joins return only when no pizza was ordered |
| App.Kitchen.JoinAll | app.py:185-191 | the seven joins all return exactly when every event is set, and then no pizza was ordered |
| AppWorkers.PizzaMaker.constructor | app.py:33-36 | a new plain worker has its number, no specialties and no active pizza |
| AppWorkers.PizzaMaker.Specialist | app.py:110-112 | a new specialist has its number, its specialties and no active pizza |
| AppWorkers.PizzaMaker.MakeBusy | app.py:38-42 | the worker shows the pizza as active for the given seconds |
| AppWorkers.PizzaMaker.GetIngredientsFromFridge | app.py:44-50 | status `to_make`; an urgent pizza goes to the front of the make queue uncounted, any other to the back and counted; 1 second |
| AppWorkers.PizzaMaker.MakePizza | app.py:114-118 | for a type the worker can make: status `made`, put into the put-in queue, for the type's make time; otherwise (a specialist) no change, no time, and the pizza joins the dropped ones |
| AppWorkers.PizzaMaker.MakeCertainPizza | app.py:57-62 | an error string and no change exactly for a type outside the specialties; otherwise as making it |
| AppWorkers.PizzaMaker.PutIntoOven | app.py:64-68 | one permit taken, status `in_oven`, put into the oven queue |
| AppWorkers.PizzaMaker.TakeOutOfOven | app.py:70-74 | permit given back, status `to_pack`, put into the pack queue |
| AppWorkers.PizzaMaker.PackPizza | app.py:76-79 | status `to_deliver`, put into the deliver queue |
| AppWorkers.PizzaMaker.DeliverPizza | app.py:81-83 | status `delivered`, counted as delivered |
| AppWorkers.PizzaMaker.ServeFridge | app.py:102-104 | the first pizza of the fridge queue moves from `in_fridge` to `to_make` and goes to the front of the make queue uncounted if urgent, else to the back and counted; the fridge queue keeps the rest; no other queue or pizza changes (`Served`); the kitchen stays valid and no count drops |
| AppWorkers.PizzaMaker.ServeMake | app.py:99-101 | the first pizza of the make queue is made and put into the put-in queue (`Served`), or, by a specialist that cannot make its type, dropped: it keeps its status, leaves every queue, and nothing else changes (`Dropped`); the kitchen stays valid |
| AppWorkers.PizzaMaker.ServePutIn | app.py:96-98 | with a free permit, the first waiting pizza moves from `made` to `in_oven` and is put into the oven queue, with one permit taken; no other queue or pizza changes (`Served`); the kitchen stays valid |
| AppWorkers.PizzaMaker.ServeTakeOut | app.py:93-95 | the first baked pizza moves to `to_pack` and is put into the pack queue, its permit given back; no other queue or pizza changes (`Served`); the kitchen stays valid |
| AppWorkers.PizzaMaker.ServePack | app.py:90-92 | the first pizza of the pack queue moves to `to_deliver` and is put into the deliver queue; no other queue or pizza changes (`Served`); the kitchen stays valid |
| AppWorkers.PizzaMaker.ServeDeliver | app.py:87-89 | the first pizza of the deliver queue is delivered; no other queue or pizza changes (`Served`); the kitchen stays valid |
| AppWorkers.PizzaMaker.DoJob | app.py:85-107 | one round serves the stage the dispatch rule picks: that queue's first pizza moves exactly one status on into the next queue and nothing else changes (`Served`), unless a specialist drops it (`Dropped`), for the stage's duration; or the worker idles with no active pizza and the kitchen unchanged; the kitchen stays valid and no unfinished count drops |
| AppWorkers.PizzaMaker.DoJobAfterOven | app.py:87-95 | the deliver, pack and take-out branches of the scan meet the round's contract |
| AppWorkers.PizzaMaker.DoJobBeforeOven | app.py:96-107 | the put-in, make, fridge and idle branches of the scan meet the round's contract |
| AppWorkers.PizzaMaker.DoTheJob | app.py:85-107 | any number of rounds keeps the kitchen valid, its pizzas unchanged, and no unfinished count lower |
| AppWorkers.Oven.Bake | app.py:127-130 | status `baked` after a fixed 4 seconds, put into the take-out queue |
| AppWorkers.Oven.ServeOven | app.py:126-130 | the first pizza of the oven queue moves from `in_oven` to `baked` and is put into the take-out queue; no other queue or pizza changes (`Served`); the kitchen stays valid |
| AppWorkers.Oven.Step | app.py:124-132 | bakes the first pizza of a non-empty oven queue for 4 seconds, changing nothing else (`Served`), else waits 0.1 seconds and changes nothing |
| AppWorkers.Oven.DoTheJob | app.py:124-132 | any number of oven rounds keeps the kitchen valid and no count lower |
| AppWorkers.NewOvens | app.py:170 | `ovens_amount` ovens |
| AppWorkers.NewWorkers | app.py:172 | new plain workers numbered from 1, none with an active pizza |
| AppWorkers.NewPizzas | app.py:177 | distinct new normal Pepperoni pizzas numbered from 1, with Pepperoni's times, all `in_fridge` |
| AppWorkers.OpenKitchen | app.py:170-183 | after set-up the kitchen and its queues are new and valid with all permits free; the fridge queue holds exactly the new pizzas, in order, all counted; every other queue is idle |

## Left out

- The asyncio machinery is not modelled:
  - event-loop scheduling and wall-clock `sleep`, whose durations are returned as numbers;
  - the per-worker `Lock` in `make_busy`;
  - task creation, cancellation and `gather`.
  Each worker or oven round is one atomic step, which cooperative scheduling allows between `empty()` and `get()`. Interleaved busy periods of several workers are not modelled.
- The `while True` loops of `do_the_job` and `Oven.do_the_job` run a given number of rounds, standing for the task being cancelled after that.
- A `get` or `acquire` that would wait is not modelled as waiting:
  - `Get` returns `None` where it would wait or raise `QueueEmpty`;
  - `Acquire` requires a free permit, which the `locked()` gate guarantees.
- `join` is modelled as a snapshot of the `finished` event: whether it would return now, not the waiting.
- `console_job`, every `print` (including the specialist's message), `input()` and `random.choice` are left out. The priorities and amounts become parameters.
- `main`'s set-up is split:
  - ovens and workers come from `NewOvens` and `NewWorkers`;
  - the kitchen and its ordered pizzas come from `OpenKitchen`;
  - the tasks that would connect them are not modelled.
- `make_certain_pizza` on a plain `PizzaMaker` raises `AttributeError` (it has no `specialties`). `MakeCertainPizza` requires a specialist instead.
- `PizzaSpecialist` is never created by `main`. It is modelled as a `PizzaMaker` with `Some` specialties.
- Priorities other than `"Urgent"` are all `Normal`, as both programs treat them.
- OrderPriority.PriorityQueue.Join: states only that a returning `join` means no task is unfinished. The invariant allows the count to go negative with the event clear (the oven queue), so the converse does not hold.
- OrderPriorityWorkers.PizzaMaker.DoTheJob: states the preserved invariant only, not the sequence of rounds; each round's progress is stated by `Served` and `OneStageOn`, but the loop does not chain them into a statement about all rounds.
- OrderPriorityWorkers.Oven.DoTheJob: states the preserved invariant only, not the sequence of rounds; each round's progress is stated by `Served` and `OneStageOn`, but the loop does not chain them into a statement about all rounds.
- AppWorkers.PizzaMaker.DoTheJob: states the preserved invariant and the growing counts only, not the sequence of rounds; each round's progress is stated by `Served` and `OneStageOn`, but the loop does not chain them into a statement about all rounds.
- AppWorkers.Oven.DoTheJob: states the preserved invariant and the growing counts only, not the sequence of rounds; each round's progress is stated by `Served` and `OneStageOn`, but the loop does not chain them into a statement about all rounds.
- No lemma claims that all pizzas are eventually delivered. In `implement_order_priority.py`, `main` can get past its `join`s with a pizza unfinished (`JoinsPassWithPizzaInFlight`), and if a pizza leaves an oven before `main` reaches the take-out queue's `join`, that `join` never returns (`TakeOutQueueNeverDrains`). In `app.py`, the fridge queue's `join` never returns once a pizza is ordered (`FridgeNeverDrains`), and a dropped pizza never reaches delivery.
