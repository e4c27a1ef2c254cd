/** The database that the storages talk to. Which of its statements fail is a parameter. */
module Faults {

  /** How many of the first `n` statements fail. */
  ghost function FailuresIn(fails: nat -> bool, n: nat): nat {
    if n == 0 then 0 else FailuresIn(fails, n - 1) + if fails(n - 1) then 1 else 0
  }

  class Database {
    const fails: nat -> bool   // by the number of the statement
    var asked: nat             // statements so far

    constructor (fails: nat -> bool)
      ensures this.fails == fails && asked == 0
    {
      this.fails, asked := fails, 0;
    }

    /** Statements so far that have failed. */
    ghost function Failures(): nat
      reads this
    {
      FailuresIn(fails, asked)
    }

    /** One statement, or one step of an iterator over its rows. */
    method Statement() returns (fault: bool)
      modifies this
      ensures asked == old(asked) + 1 && fault == fails(old(asked))
      ensures Failures() == old(Failures()) + if fault then 1 else 0
    {
      fault := fails(asked);
      asked := asked + 1;
    }
  }
}
