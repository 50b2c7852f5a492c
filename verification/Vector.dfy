/** The growable vector: what it holds, how large its array is, and what growing and shrinking cost over a run. */
module Vector {

  const MIN_SIZE: nat := 16

  /** The numbers that decide when the array is reallocated; `copied` counts the elements that reallocations moved. */
  datatype Shape = Shape(count: nat, cap: nat, copied: nat)

  function GrownCap(cap: nat): nat {
    if cap * 2 < MIN_SIZE then MIN_SIZE else cap * 2
  }

  function ShrunkCap(cap: nat): nat {
    if cap / 2 > MIN_SIZE then cap / 2 else MIN_SIZE
  }

  predicate Shrinks(count: nat, cap: nat) {
    cap > MIN_SIZE && count < cap / 3
  }

  function AfterPush(s: Shape): Shape {
    if s.count == s.cap then Shape(s.count + 1, GrownCap(s.cap), s.copied + s.count)
    else s.(count := s.count + 1)
  }

  function AfterRemove(s: Shape): Shape
    requires s.count > 0
  {
    var n := s.count - 1;
    if Shrinks(n, s.cap) then Shape(n, ShrunkCap(s.cap), s.copied + n) else s.(count := n)
  }

  /** A loop that has moved everything behind `index` one place down has taken out the element there. */
  lemma Shifted<T>(a: seq<T>, was: seq<T>, index: nat)
    requires index < |was| == |a| + 1
    requires forall k :: 0 <= k < index ==> a[k] == was[k]
    requires forall k :: index <= k < |a| ==> a[k] == was[k + 1]
    ensures a == was[..index] + was[index + 1..]
  {
  }

  class MonVector<T(0)> {
    var arr: array<T>
    var count: nat
    ghost var copied: nat

    ghost predicate Valid()
      reads this
    {
      count <= arr.Length
    }

    ghost function Contents(): seq<T>
      reads this, arr
      requires Valid()
    {
      arr[..count]
    }

    ghost function State(): Shape
      reads this
    {
      Shape(count, arr.Length, copied)
    }

    constructor ()
      ensures Valid() && fresh(arr) && Contents() == [] && State() == Shape(0, 0, 0)
    {
      arr := new T[0];
      count, copied := 0, 0;
    }

    /** Moves the elements to an array of another size. */
    method Realloc(newCap: nat)
      requires Valid() && count <= newCap
      modifies this`arr, this`copied
      ensures Valid() && fresh(arr) && arr.Length == newCap && Contents() == old(Contents())
      ensures copied == old(copied) + count
    {
      var mem := new T[newCap];
      var i := 0;
      while i < count
        invariant 0 <= i <= count && mem[..i] == arr[..i]
        modifies mem
      {
        mem[i] := arr[i];
        i := i + 1;
      }
      arr := mem;
      copied := copied + count;
    }

    method Push(x: T)
      requires Valid()
      modifies this, arr
      ensures Valid() && (arr == old(arr) || fresh(arr))
      ensures Contents() == old(Contents()) + [x]
      ensures State() == AfterPush(old(State()))
    {
      if count == arr.Length {
        var newCap := arr.Length * 2;
        if newCap < MIN_SIZE {
          newCap := MIN_SIZE;
        }
        Realloc(newCap);
      }
      arr[count] := x;
      count := count + 1;
    }

    method Remove(index: nat)
      requires Valid() && index < count
      modifies this, arr
      ensures Valid() && (arr == old(arr) || fresh(arr))
      ensures Contents() == old(Contents())[..index] + old(Contents())[index + 1..]
      ensures State() == AfterRemove(old(State()))
    {
      ghost var was := arr[..count];
      count := count - 1;
      var i := index;
      while i < count
        invariant index <= i <= count < arr.Length
        invariant forall k :: 0 <= k < count + 1 && !(index <= k < i) ==> arr[k] == was[k]
        invariant forall k :: index <= k < i ==> arr[k] == was[k + 1]
        modifies arr
      {
        arr[i] := arr[i + 1];
        i := i + 1;
      }
      Shifted(arr[..count], was, index);
      if arr.Length > MIN_SIZE && count < arr.Length / 3 {
        var halfCap := arr.Length / 2;
        var newCap := if halfCap > MIN_SIZE then halfCap else MIN_SIZE;
        Realloc(newCap);
      }
    }

    method RemoveLast()
      requires Valid() && count > 0
      modifies this, arr
      ensures Valid() && (arr == old(arr) || fresh(arr))
      ensures Contents() == old(Contents())[..old(count) - 1]
      ensures State() == AfterRemove(old(State()))
    {
      Remove(count - 1);
    }
  }

  // Runs

  datatype Op<T> = Push(x: T) | Remove(index: nat)

  /** What a new vector holds after some operations, and the shape it has; not `ok` if an index was out of range. */
  datatype Ran<T> = Ran(ok: bool, elements: seq<T>, shape: Shape)

  function Run<T>(ops: seq<Op<T>>): (r: Ran<T>)
    ensures r.shape.count == |r.elements|
  {
    if ops == [] then Ran(true, [], Shape(0, 0, 0))
    else
      var r := Run(ops[..|ops| - 1]);
      match ops[|ops| - 1]
      case Push(x) => Ran(r.ok, r.elements + [x], AfterPush(r.shape))
      case Remove(i) =>
        if i >= |r.elements| then r.(ok := false)
        else Ran(r.ok, r.elements[..i] + r.elements[i + 1..], AfterRemove(r.shape))
  }

  lemma {:induction false} OkSoFar<T>(ops: seq<Op<T>>, n: nat)
    requires n <= |ops| && Run(ops).ok
    ensures Run(ops[..n]).ok
  {
    if n == |ops| {
      assert ops[..n] == ops;
    } else {
      OkSoFar(ops[..|ops| - 1], n);
      assert ops[..|ops| - 1][..n] == ops[..n];
    }
  }

  /** Over any run, a vector holds the elements that a sequence would hold. */
  method Replay<T(0)>(ops: seq<Op<T>>) returns (v: MonVector<T>)
    requires Run(ops).ok
    ensures v.Valid() && fresh(v) && fresh(v.arr)
    ensures v.Contents() == Run(ops).elements && v.State() == Run(ops).shape
  {
    hide AfterPush, AfterRemove;
    v := new MonVector();
    var i := 0;
    while i < |ops|
      invariant 0 <= i <= |ops| && v.Valid() && fresh(v) && fresh(v.arr)
      invariant v.Contents() == Run(ops[..i]).elements && v.State() == Run(ops[..i]).shape
    {
      assert ops[..i + 1][..i] == ops[..i];
      OkSoFar(ops, i + 1);
      match ops[i] {
        case Push(x) => v.Push(x);
        case Remove(index) => v.Remove(index);
      }
      i := i + 1;
    }
    assert ops[..|ops|] == ops;
  }

  /** 16 times a power of two. */
  predicate IsCap(n: nat) {
    n == MIN_SIZE || (n > MIN_SIZE && n % 2 == 0 && IsCap(n / 2))
  }

  /** A third of the array is used, except when it is as small as it gets. */
  predicate WellShaped(s: Shape) {
    && s.count <= s.cap && (s.cap == 0 || IsCap(s.cap))
    && (s.cap > MIN_SIZE ==> s.count >= s.cap / 3)
  }

  /** What has been saved up for the next reallocation: pushes save for growing, removals for shrinking. */
  function Potential(s: Shape): nat {
    (if 3 * s.count > 2 * s.cap then 3 * s.count - 2 * s.cap else 0)
    + (if s.cap > MIN_SIZE && s.cap > 2 * s.count then s.cap - 2 * s.count else 0)
  }

  lemma PushPays(s: Shape)
    requires WellShaped(s)
    ensures var t := AfterPush(s);
            WellShaped(t) && t.copied + Potential(t) <= s.copied + Potential(s) + 3
  {
    if s.cap > 0 {
      CapAtLeast(s.cap);
    }
  }

  lemma RemovePays(s: Shape)
    requires WellShaped(s) && s.count > 0
    ensures var t := AfterRemove(s);
            WellShaped(t) && t.copied + Potential(t) <= s.copied + Potential(s) + 3
  {
    CapAtLeast(s.cap);
    if s.cap > MIN_SIZE {
      CapAtLeast(s.cap / 2);
    }
  }

  /** The sizes there are: 16, 32, 64 and beyond. */
  lemma {:induction false} CapAtLeast(n: nat)
    requires IsCap(n)
    ensures n >= MIN_SIZE && n % 2 == 0 && (n > MIN_SIZE ==> n >= 32) && (n > 32 ==> n >= 64)
  {
    if n > MIN_SIZE {
      CapAtLeast(n / 2);
    }
  }

  /** Over any run the array keeps its shape, and the elements copied are at most three for each operation. */
  lemma {:induction false} RunsAreCheap<T>(ops: seq<Op<T>>)
    requires Run(ops).ok
    ensures var s := Run(ops).shape;
            WellShaped(s) && s.copied <= 3 * |ops| && s.copied + Potential(s) <= 3 * |ops|
  {
    if ops != [] {
      var before := ops[..|ops| - 1];
      RunsAreCheap(before);
      var s := Run(before).shape;
      match ops[|ops| - 1]
      case Push(_) => PushPays(s);
      case Remove(_) => RemovePays(s);
    }
  }

  /** The array is replaced only if it must be: when it is full, or when keeping it would waste two thirds of it. */
  lemma OnlyIfNeeded(s: Shape)
    requires WellShaped(s)
    ensures AfterPush(s).cap == s.cap <==> WellShaped(s.(count := s.count + 1))
    ensures s.count > 0 ==> (AfterRemove(s).cap == s.cap <==> WellShaped(s.(count := s.count - 1)))
  {
    if s.cap > 0 {
      CapAtLeast(s.cap);
    }
  }

  /** What is well shaped, for the smallest capacities; the first push makes room for sixteen. */
  lemma SmallShapes(s: Shape)
    requires WellShaped(s)
    ensures s.cap == 0 || s.cap == 16 || s.cap == 32 || s.cap >= 64
    ensures s.cap == 0 ==> s.count == 0 && AfterPush(s).cap == 16
    ensures s.cap == 16 ==> s.count <= 16
    ensures s.cap == 32 ==> 10 <= s.count <= 32
    ensures s.count == s.cap > 0 ==> AfterPush(s).cap == 2 * s.cap
    ensures WellShaped(Shape(0, 16, s.copied)) && WellShaped(Shape(10, 32, s.copied))
  {
    if s.cap > 0 {
      CapAtLeast(s.cap);
    }
  }

  /** The operation that follows a reallocation does not undo it. */
  lemma NothingUndone(s: Shape)
    requires WellShaped(s)
    ensures var t := AfterPush(s); t.cap != s.cap ==> AfterRemove(t).cap == t.cap
    ensures s.count > 0 ==> var t := AfterRemove(s); t.cap != s.cap ==> AfterPush(t).cap == t.cap
  {
    if s.cap > 0 {
      CapAtLeast(s.cap);
    }
  }
}
