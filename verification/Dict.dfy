/** The dictionary's count and size: how full its array of buckets is over a run. */
module Dict {

  const MIN_SIZE: nat := 8

  function GetIdealSize(count: nat, size: nat): nat {
    if count * 11 >= size * 10 then size * 2
    else if count * 3 < size then
      var half := size / 2;
      if half > MIN_SIZE then half else MIN_SIZE
    else size
  }

  /** 8 times a power of two. */
  predicate IsSize(n: nat) {
    n == MIN_SIZE || (n > MIN_SIZE && n % 2 == 0 && IsSize(n / 2))
  }

  /** Neither too full nor, above the least size, too empty. */
  predicate WellSized(count: nat, size: nat) {
    IsSize(size) && 11 * count < 10 * size && (size == MIN_SIZE || 3 * count >= size)
  }

  /** Room is made for a new key before it is added. */
  function AfterInsert(count: nat, size: nat): (nat, nat) {
    (count + 1, GetIdealSize(count + 1, size))
  }

  function AfterDelete(count: nat, size: nat): (nat, nat)
    requires count > 0
  {
    (count - 1, GetIdealSize(count - 1, size))
  }

  /** A dictionary as far as its size goes; whether a key is found in the buckets is left to the caller. */
  class MonDict {
    var count: nat
    var size: nat

    ghost predicate Valid()
      reads this
    {
      WellSized(count, size)
    }

    constructor ()
      ensures Valid() && count == 0 && size == MIN_SIZE
    {
      count, size := 0, MIN_SIZE;
    }

    /** A key that is found keeps its bucket, and nothing changes. */
    method Set(found: bool)
      requires Valid()
      modifies this
      ensures Valid()
      ensures (count, size) == if found then (old(count), old(size)) else AfterInsert(old(count), old(size))
    {
      if found {
        return;
      }
      InsertKeepsSize(count, size);
      var idealSize := GetIdealSize(count + 1, size);
      if idealSize != size {
        Rehash(idealSize);
      }
      count := count + 1;
    }

    method RemoveKey(found: bool) returns (removed: bool)
      requires Valid() && (found ==> count > 0)
      modifies this
      ensures Valid() && removed == found
      ensures (count, size) == if found then AfterDelete(old(count), old(size)) else (old(count), old(size))
    {
      if !found {
        return false;
      }
      DeleteKeepsSize(count, size);
      count := count - 1;
      var idealSize := GetIdealSize(count, size);
      if idealSize != size {
        Rehash(idealSize);
      }
      removed := true;
    }

    method Rehash(newSize: nat)
      modifies this`size
      ensures size == newSize
    {
      size := newSize;
    }
  }

  lemma {:induction false} SizeIs(n: nat)
    requires IsSize(n)
    ensures n >= MIN_SIZE && n % 2 == 0 && (n > MIN_SIZE ==> n >= 16 && IsSize(n / 2)) && IsSize(n * 2)
  {
    if n > MIN_SIZE {
      SizeIs(n / 2);
    }
  }

  lemma InsertKeepsSize(count: nat, size: nat)
    requires WellSized(count, size)
    ensures var (c, s) := AfterInsert(count, size); WellSized(c, s)
  {
    SizeIs(size);
  }

  lemma DeleteKeepsSize(count: nat, size: nat)
    requires WellSized(count, size) && count > 0
    ensures var (c, s) := AfterDelete(count, size); WellSized(c, s)
  {
    SizeIs(size);
  }

  /** The array is replaced only if it must be: it keeps its size exactly if that still suits the new count. */
  lemma OnlyIfNeeded(count: nat, size: nat)
    requires WellSized(count, size)
    ensures AfterInsert(count, size).1 == size <==> WellSized(count + 1, size)
    ensures count > 0 ==> (AfterDelete(count, size).1 == size <==> WellSized(count - 1, size))
  {
    SizeIs(size);
  }

  /** What suits, for the smallest sizes. */
  lemma SmallSizes(count: nat, size: nat)
    requires WellSized(count, size)
    ensures size >= 8 && (size == 8 || size == 16 || size == 32 || size >= 64)
    ensures size == 8 ==> count <= 7
    ensures size == 16 ==> 6 <= count <= 14
    ensures size == 32 ==> 11 <= count <= 29
    ensures WellSized(0, 8) && WellSized(7, 8) && WellSized(6, 16) && WellSized(14, 16) && WellSized(11, 32)
            && WellSized(29, 32)
  {
    SizeIs(size);
    if size > 8 {
      SizeIs(size / 2);
      if size > 16 {
        SizeIs(size / 4);
      }
    }
  }

  /** Taking out the key that made the array grow does not shrink it, nor does putting back the one that made it
      shrink let it grow. */
  lemma NothingUndone(count: nat, size: nat)
    requires WellSized(count, size)
    ensures var (c, s) := AfterInsert(count, size); s != size ==> AfterDelete(c, s).1 == s
    ensures count > 0 ==> var (c, s) := AfterDelete(count, size); s != size ==> AfterInsert(c, s).1 == s
  {
    SizeIs(size);
  }

  datatype Op = Insert | Overwrite | Delete | Miss

  /** The state after some operations on a new dictionary; not ok if an empty one is deleted from. */
  function Run(ops: seq<Op>): (bool, nat, nat) {
    if ops == [] then (true, 0, MIN_SIZE)
    else
      var (ok, count, size) := Run(ops[..|ops| - 1]);
      match ops[|ops| - 1]
      case Insert => (ok, AfterInsert(count, size).0, AfterInsert(count, size).1)
      case Delete =>
        if count == 0 then (false, count, size) else (ok, AfterDelete(count, size).0, AfterDelete(count, size).1)
      case _ => (ok, count, size)
  }

  function Inserted(ops: seq<Op>): int {
    if ops == [] then 0
    else Inserted(ops[..|ops| - 1]) + match ops[|ops| - 1]
                                      case Insert => 1
                                      case Delete => -1
                                      case _ => 0
  }

  /** After every run the array has a size of 8 times a power of two that suits the number of keys. */
  lemma {:induction false} RunsStayWellSized(ops: seq<Op>)
    requires Run(ops).0
    ensures var (_, count, size) := Run(ops); WellSized(count, size) && count == Inserted(ops)
  {
    if ops != [] {
      RunsStayWellSized(ops[..|ops| - 1]);
      var (_, count, size) := Run(ops[..|ops| - 1]);
      match ops[|ops| - 1]
      case Insert => InsertKeepsSize(count, size);
      case Delete => DeleteKeepsSize(count, size);
      case _ =>
    }
  }
}
