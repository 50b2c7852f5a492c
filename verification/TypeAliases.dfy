/** Following aliases: it ends exactly when no type is an alias of itself, which analysis does not check. */
module TypeAliases {
  import opened Ast
  import opened Raw
  import opened Sem
  import opened Acceptance

  /** No type is reached from itself. */
  ghost predicate Acyclic(al: Aliases) {
    forall x, n :: x in al && n > 0 ==> Follow(al, TName(x), n) != TName(x)
  }

  ghost predicate Ends(al: Aliases, t: TRef) {
    exists n :: Ended(al, Follow(al, t, n))
  }

  lemma {:induction false} FollowAdd(al: Aliases, t: TRef, m: nat, n: nat)
    ensures Follow(al, t, m + n) == Follow(al, Follow(al, t, m), n)
    decreases m
  {
    if m > 0 && !Ended(al, t) {
      FollowAdd(al, al[t.name], m - 1, n);
    }
  }

  predicate Meets(al: Aliases, t: TRef, i: nat, x: string) {
    Follow(al, t, i) == TName(x)
  }

  /** As long as the walk has not ended it meets a new name at every step. */
  lemma {:induction false} Walk(al: Aliases, t: TRef, n: nat) returns (seen: set<string>)
    requires Acyclic(al) && !Ended(al, Follow(al, t, n))
    ensures |seen| == n + 1 && seen <= al.Keys
    ensures forall x :: x in seen ==> exists i :: 0 <= i <= n && Meets(al, t, i, x)
    decreases n
  {
    var y := Follow(al, t, n).name;
    assert Meets(al, t, n, y);
    if n == 0 {
      seen := {y};
    } else {
      FollowAdd(al, t, n - 1, 1);
      var before := Walk(al, t, n - 1);
      if y in before {
        var i :| 0 <= i <= n - 1 && Meets(al, t, i, y);
        FollowAdd(al, t, i, n - i);
        assert false;
      }
      seen := before + {y};
    }
  }

  lemma AcyclicEnds(al: Aliases, t: TRef)
    requires Acyclic(al)
    ensures Ended(al, Follow(al, t, |al|))
  {
    if !Ended(al, Follow(al, t, |al|)) {
      var seen := Walk(al, t, |al|);
      Subset(seen, al.Keys);
    }
  }

  lemma {:induction false} Subset(a: set<string>, b: set<string>)
    requires a <= b
    ensures |a| <= |b|
    decreases a
  {
    if a != {} {
      var x :| x in a;
      Subset(a - {x}, b - {x});
    }
  }

  lemma {:induction false} RoundAgain(al: Aliases, x: string, n: nat, k: nat)
    requires x in al && Follow(al, TName(x), n) == TName(x)
    ensures Follow(al, TName(x), k * n) == TName(x)
    decreases k
  {
    if k > 0 {
      RoundAgain(al, x, n, k - 1);
      FollowAdd(al, TName(x), n, (k - 1) * n);
      assert n + (k - 1) * n == k * n;
    }
  }

  /** Every walk ends if and only if there is no cycle. */
  lemma EndsIff(al: Aliases)
    ensures (forall t :: Ends(al, t)) <==> Acyclic(al)
  {
    if Acyclic(al) {
      forall t ensures Ends(al, t) {
        AcyclicEnds(al, t);
      }
    }
    if x, n: nat :| x in al && n > 0 && Follow(al, TName(x), n) == TName(x) {
      if m: nat :| Ended(al, Follow(al, TName(x), m)) {
        RoundAgain(al, x, n, m);
        assert m * n >= m;
        FollowAdd(al, TName(x), m, m * n - m);
        assert false;
      }
      assert !Ends(al, TName(x));
    }
  }

  method GetUnderlyingType(al: Aliases, t: TRef) returns (r: TRef)
    requires Acyclic(al)
    ensures Ended(al, r) && r == Follow(al, t, |al|)
  {
    r := t;
    ghost var n := 0;
    AcyclicEnds(al, t);
    while !r.TErr? && r.name in al
      invariant n <= |al| && r == Follow(al, t, n)
      decreases |al| - n
    {
      FollowAdd(al, t, n, |al| - n);
      FollowAdd(al, t, n, 1);
      r := al[r.name];
      n := n + 1;
    }
    FollowAdd(al, t, n, |al| - n);
  }

  // What this means for accepted programs

  /** A type name leads to a type name. */
  lemma {:induction false} FollowTypes(ds: seq<Def>, t: TRef, n: nat)
    requires Declared(ds) && t.TName? && IsType(TypeNames(ds), t.name)
    ensures var r := Follow(DeclaredAliases(ds), t, n); r.TName? && IsType(TypeNames(ds), r.name)
    decreases n
  {
    hide HeaderOk, BodyOk, TypeNames, DeclaredAliases;
    var al := DeclaredAliases(ds);
    NamesKey(ds);
    AliasesAre(ds, t.name);
    if n > 0 && t.name in al {
      var d :| d in ds && d.TypeDef? && d.name == t.name;
      HeaderOfType(ds, d);
      FollowTypes(ds, al[t.name], n - 1);
    }
  }

  lemma HeaderOfType(ds: seq<Def>, d: Def)
    requires Declared(ds) && d in ds && d.TypeDef?
    ensures IsType(TypeNames(ds), d.aliased)
  {
    assert HeaderOk(TypeNames(ds), d);
  }

  /** In an accepted program every type name has a type under it, none of them the error type, if and only if no
      alias is an alias of itself. */
  lemma TypesHaveMeaning(ds: seq<Def>)
    requires Declared(ds)
    ensures (forall x :: IsType(TypeNames(ds), x) ==> !Under(DeclaredAliases(ds), TName(x)).Err?)
            <==> Acyclic(DeclaredAliases(ds))
  {
    hide TypeNames, DeclaredAliases, Declared;
    var al := DeclaredAliases(ds);
    if Acyclic(al) {
      forall x | IsType(TypeNames(ds), x) ensures !Under(al, TName(x)).Err? {
        AcyclicEnds(al, TName(x));
        FollowTypes(ds, TName(x), |al|);
        AliasNames(ds, Follow(al, TName(x), |al|).name);
      }
    }
    if x, n: nat :| x in al && n > 0 && Follow(al, TName(x), n) == TName(x) {
      var r := Follow(al, TName(x), |al|);
      AliasNames(ds, x);
      FollowTypes(ds, TName(x), |al|);
      if r.name !in al {
        RoundAgain(al, x, n, |al|);
        assert |al| * n >= |al|;
        FollowAdd(al, TName(x), |al|, |al| * n - |al|);
        assert false;
      }
      AliasNames(ds, r.name);
      assert Under(al, TName(x)).Err?;
    }
  }

  lemma AliasNames(ds: seq<Def>, x: string)
    requires Declared(ds)
    ensures x in DeclaredAliases(ds) <==> x in TypeNames(ds)
    ensures x in TypeNames(ds) ==> !Reserved(x)
  {
    hide HeaderOk, BodyOk;
    NamesKey(ds);
    AliasesAre(ds, x);
  }

  function Circle(): seq<Def> {
    [TypeDef("a", "b"), TypeDef("b", "a")]
  }

  /** Analysis accepts two types that are aliases of each other. */
  lemma CircleAccepted()
    ensures Analyse(Circle()).Some?
    ensures !Acyclic(Analyse(Circle()).value.aliases)
  {
    hide Analyse, Declared, DeclaredAliases, DeclaredTable, Follow;
    var ds := Circle();
    CircleDeclared();
    AcceptedIff(ds);
    var al := DeclaredAliases(ds);
    CircleAliases();
    FollowTwice(al, "a", "b");
  }

  lemma CircleDeclared()
    ensures Declared(Circle())
  {
    var ds := Circle();
    assert "a" != "b";
    assert !Reserved("a") && !Reserved("b");
    assert ds[0] in ds && ds[1] in ds;
    assert "a" in TypeNames(ds) && "b" in TypeNames(ds);
  }

  lemma CircleAliases()
    ensures var al := DeclaredAliases(Circle());
            "a" in al && "b" in al && al["a"] == TName("b") && al["b"] == TName("a")
  {
    hide DeclaredAliases, Declared, NamesOk;
    var ds := Circle();
    CircleDeclared();
    assert NamesOk(ds) by { DeclaredNames(ds); }
    NamesKey(ds);
    assert ds[0] in ds && ds[1] in ds;
    AliasesAre(ds, "a");
    AliasesAre(ds, "b");
  }

  lemma DeclaredNames(ds: seq<Def>)
    requires Declared(ds)
    ensures NamesOk(ds)
  {
    hide NamesOk, HeaderOk, BodyOk;
  }

  lemma FollowTwice(al: Aliases, x: string, y: string)
    requires x in al && y in al && al[x] == TName(y) && al[y] == TName(x)
    ensures Follow(al, TName(x), 2) == TName(x)
  {
    assert Follow(al, TName(y), 1) == TName(x);
  }
}
