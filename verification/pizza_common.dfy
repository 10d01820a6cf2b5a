/**
 * Vocabulary shared by both pizza-factory programs: the fixed ordered tuple of
 * pizza statuses, the two priority classes, the workers' dispatch rule, and a
 * model of the counting semaphore that stands for the ovens.
 */
module PizzaCommon {

  /** The stages a pizza goes through, in the order of `Pizza.STATUSES`. */
  datatype Status = InFridge | ToMake | Made | InOven | Baked | ToPack | ToDeliver | Delivered

  /** `Pizza.STATUSES`: the fixed ordered tuple of statuses. */
  const STATUSES: seq<Status> := [InFridge, ToMake, Made, InOven, Baked, ToPack, ToDeliver, Delivered]

  /** A pizza is either `Urgent` or anything else, which both programs treat as `Normal`. */
  datatype Priority = Normal | Urgent

  datatype Option<T> = None | Some(value: T)

  /** `STATUSES.index(s)`: the position of a status in the ordered tuple. */
  function Index(s: Status): (i: nat)
    ensures i < |STATUSES| && STATUSES[i] == s
  {
    match s
    case InFridge => 0
    case ToMake => 1
    case Made => 2
    case InOven => 3
    case Baked => 4
    case ToPack => 5
    case ToDeliver => 6
    case Delivered => 7
  }

  /** The status that follows `s` in `STATUSES`; only `Delivered` has none. */
  function Next(s: Status): (r: Status)
    requires s != Delivered
    ensures Index(r) == Index(s) + 1
    ensures STATUSES[Index(s) + 1] == r
  {
    match s
    case InFridge => ToMake
    case ToMake => Made
    case Made => InOven
    case InOven => Baked
    case Baked => ToPack
    case ToPack => ToDeliver
    case ToDeliver => Delivered
  }

  /** `STATUSES` lists every status. */
  lemma AllListed()
    ensures forall s: Status :: s in STATUSES
  {
    forall s: Status
      ensures s in STATUSES
    {
      assert STATUSES[Index(s)] == s;
    }
  }

  /** Every status except the last has a queue where pizzas wait for that stage. */
  const QueuedStatuses: set<Status> := {InFridge, ToMake, Made, InOven, Baked, ToPack, ToDeliver}

  // ------------------------------------------------------------ queue contents

  /** No element occurs twice. */
  ghost predicate Distinct<T>(s: seq<T>)
  {
    forall x | x in multiset(s) :: multiset(s)[x] == 1
  }

  /** Appending an element not yet present keeps a sequence free of repetitions. */
  lemma DistinctAppend<T>(s: seq<T>, x: T)
    requires Distinct(s) && x !in s
    ensures Distinct(s + [x])
  {
    assert multiset(s + [x]) == multiset(s) + multiset{x};
  }

  /** Removing the first element of a sequence free of repetitions leaves it nowhere else. */
  lemma DistinctTail<T>(s: seq<T>)
    requires Distinct(s) && s != []
    ensures Distinct(s[1..]) && s[0] !in s[1..]
  {
    assert s == [s[0]] + s[1..];
    var rest := multiset(s[1..]);
    assert multiset(s) == multiset{s[0]} + rest;
    assert multiset(s)[s[0]] == 1 + rest[s[0]];
    assert rest[s[0]] == 0;
    forall x | x in rest
      ensures rest[x] == 1
    {
      assert multiset(s)[x] >= rest[x];
    }
  }

  /** The elements listed in `s`. */
  ghost function Members<T>(s: seq<T>): set<T>
  {
    if s == [] then {} else Members(s[..|s| - 1]) + {s[|s| - 1]}
  }

  /** `Members(s)` holds exactly the elements occurring in `s`. */
  lemma {:induction false} MembersListed<T>(s: seq<T>, x: T)
    ensures x in Members(s) <==> x in s
    decreases |s|
  {
    if s != [] {
      MembersListed(s[..|s| - 1], x);
      assert s == s[..|s| - 1] + [s[|s| - 1]];
    }
  }

  /** Taking one more element of a sequence free of repetitions adds an element not yet taken. */
  lemma TakenOneMore<T>(s: seq<T>, i: nat)
    requires i < |s| && Distinct(s)
    ensures s[i] !in Members(s[..i]) && Members(s[..i + 1]) == Members(s[..i]) + {s[i]}
  {
    assert s[..i + 1] == s[..i] + [s[i]];
    assert s == s[..i] + [s[i]] + s[i + 1..];
    assert multiset(s) == multiset(s[..i]) + multiset{s[i]} + multiset(s[i + 1..]);
    assert s[i] in multiset(s) && multiset(s)[s[i]] == 1;
    assert multiset(s[..i])[s[i]] == 0;
    MembersListed(s[..i], s[i]);
    assert s[..i + 1][..i] == s[..i];
  }

  /** A list that held `l0` and the first `i` of `ps`, and then received `ps[i]`, holds `l0` and the first `i + 1`. */
  lemma PrefixGrows<T>(l0: seq<T>, l: seq<T>, l': seq<T>, ps: seq<T>, i: nat)
    requires i < |ps| && l == l0 + ps[..i] && l' == l + [ps[i]]
    ensures l' == l0 + ps[..i + 1]
  {
    assert ps[..i + 1] == ps[..i] + [ps[i]];
  }

  /** `s` back to front. */
  function Reversed<T>(s: seq<T>): (r: seq<T>)
    ensures |r| == |s|
    decreases |s|
  {
    if s == [] then [] else [s[|s| - 1]] + Reversed(s[..|s| - 1])
  }

  /** Reversing a sequence with one more element at the back puts that element in front. */
  lemma ReversedSnoc<T>(s: seq<T>, x: T)
    ensures Reversed(s + [x]) == [x] + Reversed(s)
  {
    assert (s + [x])[..|s|] == s;
  }

  // ------------------------------------------------------------ worker dispatch

  /**
   * A worker may serve stage `s` when its queue has pizzas, it is not the
   * ovens' own queue, and, for put-in, a permit is free.
   */
  predicate Eligible(s: Status, waiting: set<Status>, locked: bool)
  {
    s in waiting && s != InOven && s != Delivered && (s == Made ==> !locked)
  }

  /**
   * `do_the_job`'s scan: deliver, pack, take-out, put-in (only when the ovens'
   * semaphore is not locked), make, fridge, else idle. `waiting` is the set of
   * statuses whose queue is not empty.
   */
  function NextJob(waiting: set<Status>, locked: bool): (r: Option<Status>)
    ensures r.None? ==> forall s :: !Eligible(s, waiting, locked)
    ensures r.Some? ==> Eligible(r.value, waiting, locked)
    ensures r.Some? ==> forall s :: Eligible(s, waiting, locked) ==> Index(s) <= Index(r.value)
  {
    if ToDeliver in waiting then Some(ToDeliver)
    else if ToPack in waiting then Some(ToPack)
    else if Baked in waiting then Some(Baked)
    else if Made in waiting && !locked then Some(Made)
    else if ToMake in waiting then Some(ToMake)
    else if InFridge in waiting then Some(InFridge)
    else None
  }

  /**
   * `asyncio.Semaphore` as an integer permit counter. Acquiring never has to
   * wait in these programs, because the only caller checks `Locked()` first.
   */
  class Semaphore {
    var value: nat

    constructor (value: nat)
      ensures this.value == value
    {
      this.value := value;
    }

    /** `locked()`: true exactly when no permit is left. */
    function Locked(): (r: bool)
      reads this
      ensures r <==> value == 0
    {
      value == 0
    }

    /** `acquire()` on an unlocked semaphore takes one permit. */
    method Acquire()
      requires value > 0
      modifies this
      ensures value == old(value) - 1
    {
      value := value - 1;
    }

    /** `release()` gives one permit back. */
    method Release()
      modifies this
      ensures value == old(value) + 1
    {
      value := value + 1;
    }
  }
}
