/**
  `Condition`, the condition variable: src/base/Condition.h. `parked` are the threads asleep in
  `wait`; `woken` those that left the sleep, by a notification or spuriously, and have yet to get
  the mutex back and test their condition again.
 */
module ConditionVariable {

  datatype Condition<Tid> = Condition(parked: set<Tid>, woken: set<Tid>)

  function New<Tid>(): Condition<Tid>
  {
    Condition({}, {})
  }

  function Wait<Tid>(c: Condition<Tid>, t: Tid): Condition<Tid>
  {
    c.(parked := c.parked + {t})
  }

  /** One parked thread leaves the sleep: by `notify` that picked it, or for no reason. */
  function Wake<Tid>(c: Condition<Tid>, t: Tid): Condition<Tid>
  {
    if t in c.parked then Condition(c.parked - {t}, c.woken + {t}) else c
  }

  /** `notify`: with threads parked, one of them is picked; with none, nothing happens. */
  predicate CanPick<Tid>(c: Condition<Tid>, pick: Tid)
  {
    c.parked == {} || pick in c.parked
  }

  function Notify<Tid>(c: Condition<Tid>, pick: Tid): Condition<Tid>
    requires CanPick(c, pick)
  {
    Wake(c, pick)
  }

  function NotifyAll<Tid>(c: Condition<Tid>): Condition<Tid>
  {
    Condition({}, c.woken + c.parked)
  }

  /** A woken thread gets the mutex back: `wait` returns. */
  function Return<Tid>(c: Condition<Tid>, t: Tid): Condition<Tid>
  {
    c.(woken := c.woken - {t})
  }

  function Waiters<Tid>(c: Condition<Tid>): set<Tid>
  {
    c.parked + c.woken
  }

  predicate Apart<Tid>(c: Condition<Tid>)
  {
    c.parked !! c.woken
  }

  /**
    No wakeup is lost when `work` items are at hand: if anyone sleeps, there are as many threads
    on their way to the work as there is work.
   */
  predicate NoLostWakeup<Tid>(c: Condition<Tid>, work: int)
  {
    c.parked != {} ==> work <= |c.woken|
  }

  /** One more item and one `notify`. */
  lemma NotifyCovers<Tid>(c: Condition<Tid>, pick: Tid, work: int)
    requires Apart(c) && NoLostWakeup(c, work) && CanPick(c, pick)
    ensures Apart(Notify(c, pick)) && NoLostWakeup(Notify(c, pick), work + 1)
  {
    if pick in c.parked {
      assert |c.woken + {pick}| == |c.woken| + 1;
    }
  }

  /** A returning thread that takes one item. */
  lemma ReturnTakes<Tid>(c: Condition<Tid>, t: Tid, work: int)
    requires Apart(c) && NoLostWakeup(c, work) && t in c.woken
    ensures Apart(Return(c, t)) && NoLostWakeup(Return(c, t), work - 1)
  {
    assert |c.woken - {t}| == |c.woken| - 1;
  }

  /** Going to sleep, back or for the first time, is safe only with no item at hand. */
  lemma WaitNeedsNoWork<Tid>(c: Condition<Tid>, t: Tid, work: int)
    requires Apart(c) && t !in c.woken
    ensures Apart(Wait(c, t))
    ensures work <= 0 ==> NoLostWakeup(Wait(c, t), work)
    ensures NoLostWakeup(Wait(c, t), work) ==> work <= |c.woken|
  {
    assert t in Wait(c, t).parked;
  }

  lemma WakeKeeps<Tid>(c: Condition<Tid>, t: Tid, work: int)
    requires Apart(c) && NoLostWakeup(c, work)
    ensures Apart(Wake(c, t)) && NoLostWakeup(Wake(c, t), work)
  {
    if t in c.parked {
      assert |c.woken + {t}| == |c.woken| + 1;
    }
  }
}
