/**
 * The name counter of counteriter.py: an endless iterator over 1, 2, 3, ...
 * whose state is the last value it handed out.
 */
module Counter {
  class CounterIterator {
    /** The last value returned (`_c`); 0 before the first `next`. */
    var count: nat

    constructor ()
      ensures count == 0
    {
      count := 0;
    }

    /** `iter(c)` is `c` itself. */
    method Iter() returns (r: CounterIterator)
      ensures r == this
    {
      r := this;
    }

    /** `next(c)`: one more than the previous value; it never stops. */
    method Next() returns (r: nat)
      modifies this
      ensures count == old(count) + 1
      ensures r == count
    {
      count := count + 1;
      r := count;
    }
  }

  /**
   * `reset_iters()`: two fresh counters replace the module's host and switch
   * counters, so the next names drawn are `h1` and `s1` again.
   */
  method ResetIters() returns (hostsIter: CounterIterator, switchIter: CounterIterator)
    ensures fresh(hostsIter) && fresh(switchIter) && hostsIter != switchIter
    ensures hostsIter.count == 0 && switchIter.count == 0
  {
    hostsIter := new CounterIterator();
    switchIter := new CounterIterator();
  }

  /** Drawing from one counter leaves another one as it was. */
  method Independent(c: CounterIterator, d: CounterIterator) returns (first: nat, second: nat)
    requires c != d
    modifies c
    ensures first == old(c.count) + 1 && second == old(c.count) + 2
    ensures d.count == old(d.count)
  {
    first := c.Next();
    second := c.Next();
  }
}
