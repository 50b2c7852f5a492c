/** Size and alignment of records: the layout is sound, and no smaller one is. */
module RecordLayout {
  import Ast
  import opened TypeRules

  // Layouts of fields of given sizes, each aligned to its own size

  predicate IsSize(n: nat) {
    n == 1 || n == 2 || n == 4 || n == 8
  }

  predicate AreSizes(ss: seq<nat>) {
    forall i :: 0 <= i < |ss| ==> IsSize(ss[i])
  }

  /** Fields in order, aligned, apart from one another and inside a record whose size suits an array of records. */
  predicate IsLayout(ss: seq<nat>, offsets: seq<nat>, total: nat)
    requires AreSizes(ss)
  {
    && |offsets| == |ss|
    && (forall i :: 0 <= i < |ss| ==> offsets[i] % ss[i] == 0)
    && (forall i, j :: 0 <= i < j < |ss| ==> offsets[i] + ss[i] <= offsets[j])
    && (forall i :: 0 <= i < |ss| ==> offsets[i] + ss[i] <= total && total % ss[i] == 0)
  }

  function RoundUp(n: nat, a: nat): (r: nat)
    requires a > 0
    ensures n <= r < n + a
  {
    if n % a > 0 then n + a - n % a else n
  }

  lemma RoundUpIs(n: nat, a: nat)
    requires IsSize(a)
    ensures RoundUp(n, a) % a == 0
    ensures forall m: nat :: m >= n && m % a == 0 ==> m >= RoundUp(n, a)
  {
  }

  function Align(ss: seq<nat>): nat {
    if ss == [] then 1 else Max(Align(ss[..|ss| - 1]), ss[|ss| - 1])
  }

  function Max(a: nat, b: nat): nat {
    if a > b then a else b
  }

  lemma {:induction false} AlignIs(ss: seq<nat>)
    requires AreSizes(ss)
    ensures IsSize(Align(ss))
    ensures forall i :: 0 <= i < |ss| ==> Align(ss) % ss[i] == 0
    ensures Align(ss) == 1 || Align(ss) in ss
  {
    if ss != [] {
      var init := ss[..|ss| - 1];
      AlignIs(init);
      forall i | 0 <= i < |ss| ensures Align(ss) % ss[i] == 0 {
        if i < |init| {
          assert ss[i] == init[i] && Align(init) % init[i] == 0;
        }
      }
    }
  }

  /** Where the fields placed so far end. */
  function End(ss: seq<nat>): nat
    requires AreSizes(ss)
  {
    if ss == [] then 0
    else
      var last := ss[|ss| - 1];
      RoundUp(End(ss[..|ss| - 1]), last) + last
  }

  function Offsets(ss: seq<nat>): (r: seq<nat>)
    requires AreSizes(ss)
    ensures |r| == |ss|
  {
    seq(|ss|, i requires 0 <= i < |ss| => RoundUp(End(ss[..i]), ss[i]))
  }

  function Size(ss: seq<nat>): nat
    requires AreSizes(ss)
  {
    AlignIs(ss);
    RoundUp(End(ss), Align(ss))
  }

  lemma EndStep(ss: seq<nat>, i: nat)
    requires AreSizes(ss) && i < |ss|
    ensures End(ss[..i + 1]) == Offsets(ss)[i] + ss[i]
    ensures End(ss[..i]) <= Offsets(ss)[i]
  {
    var t := ss[..i + 1];
    assert t[..i] == ss[..i] && t[i] == ss[i];
  }

  lemma EndOfNone(ss: seq<nat>)
    ensures AreSizes(ss[..0]) && End(ss[..0]) == 0
  {
  }

  /** One more field: up to the next multiple of its size, and past it. */
  lemma EndNext(ss: seq<nat>, i: nat)
    requires i < |ss| && AreSizes(ss[..i]) && IsSize(ss[i])
    ensures AreSizes(ss[..i + 1])
    ensures var n := End(ss[..i]); End(ss[..i + 1]) == n + (if n % ss[i] > 0 then ss[i] - n % ss[i] else 0) + ss[i]
  {
    var t := ss[..i + 1];
    assert t[..i] == ss[..i] && t[i] == ss[i];
  }

  lemma SizeIs(ss: seq<nat>)
    requires AreSizes(ss)
    ensures IsSize(Align(ss))
    ensures var n := End(ss); Size(ss) == n + (if n % Align(ss) > 0 then Align(ss) - n % Align(ss) else 0)
  {
    AlignIs(ss);
  }

  lemma {:induction false} EndGrows(ss: seq<nat>, i: nat, j: nat)
    requires AreSizes(ss) && i <= j <= |ss|
    ensures End(ss[..i]) <= End(ss[..j])
    decreases j - i
  {
    if i < j {
      EndGrows(ss, i, j - 1);
      EndStep(ss, j - 1);
    }
  }

  lemma Divides(n: nat, a: nat, b: nat)
    requires IsSize(a) && IsSize(b) && n % a == 0 && a % b == 0
    ensures n % b == 0
  {
    if a == 8 {
      ByEight(n);
    } else if a == 4 {
      ByFour(n);
    }
  }

  lemma ByEight(n: nat)
    requires n % 8 == 0
    ensures n % 4 == 0 && n % 2 == 0
  {
    var k := n / 8;
    assert n == 8 * k;
    assert n == 4 * (2 * k) && n == 2 * (4 * k);
  }

  lemma ByFour(n: nat)
    requires n % 4 == 0
    ensures n % 2 == 0
  {
    var k := n / 4;
    assert n == 4 * k;
    assert n == 2 * (2 * k);
  }

  lemma LayoutSound(ss: seq<nat>)
    requires AreSizes(ss)
    ensures IsLayout(ss, Offsets(ss), Size(ss))
    ensures IsSize(Align(ss)) && Size(ss) % Align(ss) == 0
  {
    var os := Offsets(ss);
    AlignIs(ss);
    RoundUpIs(End(ss), Align(ss));
    assert ss[..|ss|] == ss;
    forall i | 0 <= i < |ss| ensures os[i] % ss[i] == 0 && os[i] + ss[i] <= Size(ss) && Size(ss) % ss[i] == 0 {
      RoundUpIs(End(ss[..i]), ss[i]);
      EndStep(ss, i);
      EndGrows(ss, i + 1, |ss|);
      Divides(Size(ss), Align(ss), ss[i]);
    }
    forall i, j | 0 <= i < j < |ss| ensures os[i] + ss[i] <= os[j] {
      EndStep(ss, i);
      EndGrows(ss, i + 1, j);
      EndStep(ss, j);
    }
  }

  /** Every other layout places every field at least as far and is at least as large. */
  lemma LayoutLeast(ss: seq<nat>, offsets: seq<nat>, total: nat)
    requires AreSizes(ss) && IsLayout(ss, offsets, total)
    ensures forall i :: 0 <= i < |ss| ==> Offsets(ss)[i] <= offsets[i]
    ensures Size(ss) <= total
  {
    forall i | 0 <= i < |ss| ensures Offsets(ss)[i] <= offsets[i] {
      OffsetLeast(ss, offsets, total, i);
    }
    AlignIs(ss);
    RoundUpIs(End(ss), Align(ss));
    if ss != [] {
      EndStep(ss, |ss| - 1);
      assert ss[..|ss|] == ss;
      assert total % Align(ss) == 0 by {
        if Align(ss) != 1 {
          var i :| 0 <= i < |ss| && ss[i] == Align(ss);
        }
      }
    }
  }

  lemma {:induction false} OffsetLeast(ss: seq<nat>, offsets: seq<nat>, total: nat, i: nat)
    requires AreSizes(ss) && IsLayout(ss, offsets, total) && i < |ss|
    ensures Offsets(ss)[i] <= offsets[i]
    decreases i
  {
    hide End, Offsets, RoundUp;
    OffsetIs(ss, i);
    RoundUpIs(End(ss[..i]), ss[i]);
    if i > 0 {
      OffsetLeast(ss, offsets, total, i - 1);
      EndStep(ss, i - 1);
    } else {
      assert End([]) == 0 by { NoFields(); }
    }
  }

  lemma OffsetIs(ss: seq<nat>, i: nat)
    requires AreSizes(ss) && i < |ss|
    ensures Offsets(ss)[i] == RoundUp(End(ss[..i]), ss[i])
  {
    hide End, RoundUp;
  }

  lemma NoFields()
    ensures End([]) == 0
  {
  }

  // The sizes of types

  /** Sizes in bytes; a pointer has 8. */
  function PrimitiveSize(p: Prim): nat {
    match p
    case Char => 1
    case Int8 => 1
    case Int16 => 2
    case Int32 => 4
    case Int64 => 8
    case Float32 => 4
    case Float64 => 8
    case Void => 0
    case IntPtr => 8
  }

  ghost function TypeSize(u: Types, t: string): nat
    requires Universe(u) && t in u
  {
    UnderlyingIs(u, t);
    if IsRefType(u, t) then 8 else PrimitiveSize(u[Underlying(u, t)].code)
  }

  ghost predicate FieldsKnown(u: Types, fs: seq<Field>) {
    Universe(u) && forall i :: 0 <= i < |fs| ==> fs[i].t in u
  }

  ghost function Sizes(u: Types, fs: seq<Field>): (r: seq<nat>)
    requires FieldsKnown(u, fs)
    ensures |r| == |fs|
  {
    seq(|fs|, i requires 0 <= i < |fs| => TypeSize(u, fs[i].t))
  }

  /** The alignment of a field is read from the definition of its type without looking through aliases. */
  ghost predicate AlignReadable(u: Types, t: string)
    requires Universe(u) && t in u
  {
    IsRefType(u, t) || u[t].Primitive?
  }

  /** A reference, or a primitive type other than void under its own name. */
  ghost predicate Placeable(u: Types, t: string)
    requires Universe(u) && t in u
  {
    AlignReadable(u, t) && TypeSize(u, t) > 0
  }

  lemma PlaceableSize(u: Types, t: string)
    requires Universe(u) && t in u
    ensures IsSize(TypeSize(u, t)) || TypeSize(u, t) == 0
    ensures u[t].Primitive? ==> Underlying(u, t) == t && !IsRefType(u, t)
  {
    hide Underlying;
    UnderlyingIs(u, t);
    assert t == ERROR ==> u[t].Special?;
  }

  method IsReference(u: Types, t: string) returns (b: bool)
    requires Universe(u) && t in u
    ensures b <==> IsRefType(u, t)
  {
    var r := GetUnderlying(u, t);
    b := r == ERROR || !u[r].Primitive?;
  }

  method GetTypeSize(u: Types, t: string) returns (n: nat)
    requires Universe(u) && t in u
    ensures n == TypeSize(u, t)
  {
    var r := GetUnderlying(u, t);
    if r == ERROR || !u[r].Primitive? {
      return 8;
    }
    n := PrimitiveSize(u[r].code);
  }

  /** Fails on a field whose type is another name for a primitive type. */
  method GetRecordDescAlign(u: Types, fs: seq<Field>) returns (r: Ast.Option<nat>)
    requires FieldsKnown(u, fs)
    ensures r.Some? <==> forall i :: 0 <= i < |fs| ==> AlignReadable(u, fs[i].t)
    ensures r.Some? ==> r.value == Align(Sizes(u, fs))
  {
    hide IsRefType, TypeSize, Universe;
    var a := 1;
    var i := 0;
    ghost var ss := Sizes(u, fs);
    while i < |fs|
      invariant 0 <= i <= |fs| && a == Align(ss[..i])
      invariant forall j :: 0 <= j < i ==> AlignReadable(u, fs[j].t)
    {
      assert ss[..i + 1][..i] == ss[..i];
      PlaceableSize(u, fs[i].t);
      var t := fs[i].t;
      var ref := IsReference(u, t);
      if ref {
        RefSize(u, t);
        a := if 8 > a then 8 else a;
      } else if u[t].Primitive? {
        PrimSize(u, t);
        var n := PrimitiveSize(u[t].code);
        a := if n > a then n else a;
      } else {
        return Ast.None;
      }
      i := i + 1;
    }
    assert ss[..i] == ss;
    r := Ast.Some(a);
  }

  lemma RefSize(u: Types, t: string)
    requires Universe(u) && t in u && IsRefType(u, t)
    ensures TypeSize(u, t) == 8
  {
  }

  lemma PrimSize(u: Types, t: string)
    requires Universe(u) && t in u && u[t].Primitive?
    ensures TypeSize(u, t) == PrimitiveSize(u[t].code)
  {
    PlaceableSize(u, t);
  }

  /** A size exactly when every field can be placed; a void field would be a division by zero. */
  method GetRecordDescSize(u: Types, fs: seq<Field>) returns (r: Ast.Option<nat>)
    requires FieldsKnown(u, fs)
    ensures r.Some? <==> forall i :: 0 <= i < |fs| ==> Placeable(u, fs[i].t)
    ensures r.Some? ==> AreSizes(Sizes(u, fs)) && r.value == Size(Sizes(u, fs))
  {
    hide IsRefType, TypeSize, AlignReadable, Universe, AreSizes, End, RoundUp, Size;
    var align := GetRecordDescAlign(u, fs);
    if align.None? {
      return Ast.None;
    }
    var total := 0;
    var i := 0;
    ghost var ss := Sizes(u, fs);
    EndOfNone(ss);
    while i < |fs|
      invariant 0 <= i <= |fs| && AreSizes(ss[..i]) && total == End(ss[..i])
      invariant forall j :: 0 <= j < i ==> Placeable(u, fs[j].t)
    {
      PlaceableSize(u, fs[i].t);
      var size := GetTypeSize(u, fs[i].t);
      if size == 0 {
        return Ast.None;
      }
      EndNext(ss, i);
      var remainder := total % size;
      if remainder > 0 {
        total := total + (size - remainder);
      }
      total := total + size;
      i := i + 1;
    }
    assert ss[..i] == ss;
    SizeIs(ss);
    var remainder := total % align.value;
    if remainder > 0 {
      total := total + (align.value - remainder);
    }
    r := Ast.Some(total);
  }
}
