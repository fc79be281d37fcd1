/** Projecting a side's final definitions into parent coordinates, in one pass that
    drops every parent two definitions land on. */
module EquivFinals {
  import opened Common
  import opened Ir
  import opened Layouts
  import opened Namespace
  import opened EquivQuery

  /** The definition `x`, already visited, takes its key out of the comparison. */
  predicate Spoils(arch: Arch, finals: map<Name, Var>, tainted: set<Name>, side: Side, done: set<Name>, x: Name) {
    x in done && Eligible(arch, finals, tainted, x)
    && (FinalExpr(arch, finals, side, x).None? || exists y :: y in done && Rival(arch, finals, tainted, x, y))
  }

  /** After the definitions in `done`: what was inserted, and what collided. */
  ghost predicate Visited(arch: Arch, finals: map<Name, Var>, tainted: set<Name>, side: Side, done: set<Name>,
                          out: map<Name, Expr>, collided: set<Name>)
  {
    (forall x {:trigger KeyOf(arch, x)} :: x in done && Eligible(arch, finals, tainted, x) && FinalExpr(arch, finals, side, x).Some? ==>
      KeyOf(arch, x) in out)
    && (forall key :: key in out ==> exists x {:trigger KeyOf(arch, x)} ::
      x in done && Eligible(arch, finals, tainted, x) && KeyOf(arch, x) == key && FinalExpr(arch, finals, side, x) == Some(out[key]))
    && (forall x {:trigger KeyOf(arch, x)} :: Spoils(arch, finals, tainted, side, done, x) ==> KeyOf(arch, x) in collided)
    && (forall key :: key in collided ==> exists x {:trigger KeyOf(arch, x)} ::
      Spoils(arch, finals, tainted, side, done, x) && KeyOf(arch, x) == key)
  }

  lemma SkipVisited(arch: Arch, finals: map<Name, Var>, tainted: set<Name>, side: Side, done: set<Name>,
                    out: map<Name, Expr>, collided: set<Name>, x: Name)
    requires Visited(arch, finals, tainted, side, done, out, collided) && !Eligible(arch, finals, tainted, x)
    ensures Visited(arch, finals, tainted, side, done + {x}, out, collided)
  {
    hide Eligible, FinalExpr, KeyOf;
    forall z | Spoils(arch, finals, tainted, side, done + {x}, z) ensures Spoils(arch, finals, tainted, side, done, z) {
    }
    forall key | key in collided ensures exists z {:trigger KeyOf(arch, z)} ::
        Spoils(arch, finals, tainted, side, done + {x}, z) && KeyOf(arch, z) == key
    {
      var z :| Spoils(arch, finals, tainted, side, done, z) && KeyOf(arch, z) == key;
      assert Spoils(arch, finals, tainted, side, done + {x}, z);
    }
  }

  /** An occupied or unprojectable key is marked collided. */
  lemma InsertVisited(arch: Arch, finals: map<Name, Var>, tainted: set<Name>, side: Side, done: set<Name>,
                      out: map<Name, Expr>, collided: set<Name>, x: Name)
    requires Visited(arch, finals, tainted, side, done, out, collided)
    requires Eligible(arch, finals, tainted, x) && x !in done
    ensures
      var key, e := KeyOf(arch, x), FinalExpr(arch, finals, side, x);
      Visited(arch, finals, tainted, side, done + {x},
        if e.Some? then out[key := e.value] else out,
        if e.None? || key in out then collided + {key} else collided)
  {
    var key, e, now := KeyOf(arch, x), FinalExpr(arch, finals, side, x), done + {x};
    var out' := if e.Some? then out[key := e.value] else out;
    var collided' := if e.None? || key in out then collided + {key} else collided;
    InsertedOut(arch, finals, tainted, side, done, out, collided, x);
    hide Eligible, FinalExpr, KeyOf;
    forall z | Spoils(arch, finals, tainted, side, now, z) ensures KeyOf(arch, z) in collided' {
      InsertSpoils(arch, finals, tainted, side, done, out, collided, x, z);
    }
    forall k | k in collided' ensures exists z {:trigger KeyOf(arch, z)} :: Spoils(arch, finals, tainted, side, now, z) && KeyOf(arch, z) == k {
      if k in collided {
        var z :| Spoils(arch, finals, tainted, side, done, z) && KeyOf(arch, z) == k;
        assert Spoils(arch, finals, tainted, side, now, z);
      } else if e.Some? {
        var y :| y in done && Eligible(arch, finals, tainted, y) && KeyOf(arch, y) == key && FinalExpr(arch, finals, side, y) == Some(out[key]);
        assert Rival(arch, finals, tainted, x, y);
        assert Spoils(arch, finals, tainted, side, now, x) && KeyOf(arch, x) == k;
      } else {
        assert Spoils(arch, finals, tainted, side, now, x) && KeyOf(arch, x) == k;
      }
    }
  }

  lemma InsertedOut(arch: Arch, finals: map<Name, Var>, tainted: set<Name>, side: Side, done: set<Name>,
                    out: map<Name, Expr>, collided: set<Name>, x: Name)
    requires Visited(arch, finals, tainted, side, done, out, collided) && Eligible(arch, finals, tainted, x) && x !in done
    ensures
      var key, e, now := KeyOf(arch, x), FinalExpr(arch, finals, side, x), done + {x};
      var out' := if e.Some? then out[key := e.value] else out;
      (forall z {:trigger KeyOf(arch, z)} :: z in now && Eligible(arch, finals, tainted, z) && FinalExpr(arch, finals, side, z).Some? ==>
        KeyOf(arch, z) in out')
      && forall k :: k in out' ==> exists z {:trigger KeyOf(arch, z)} ::
        z in now && Eligible(arch, finals, tainted, z) && KeyOf(arch, z) == k && FinalExpr(arch, finals, side, z) == Some(out'[k])
  {
    var key, e, now := KeyOf(arch, x), FinalExpr(arch, finals, side, x), done + {x};
    var out' := if e.Some? then out[key := e.value] else out;
    forall k | k in out' ensures exists z {:trigger KeyOf(arch, z)} ::
        z in now && Eligible(arch, finals, tainted, z) && KeyOf(arch, z) == k && FinalExpr(arch, finals, side, z) == Some(out'[k])
    {
      if e.Some? && k == key {
        assert KeyOf(arch, x) == k;
      } else {
        var z :| z in done && Eligible(arch, finals, tainted, z) && KeyOf(arch, z) == k && FinalExpr(arch, finals, side, z) == Some(out[k]);
        assert z in now;
      }
    }
  }

  lemma InsertSpoils(arch: Arch, finals: map<Name, Var>, tainted: set<Name>, side: Side, done: set<Name>,
                     out: map<Name, Expr>, collided: set<Name>, x: Name, z: Name)
    requires Visited(arch, finals, tainted, side, done, out, collided)
    requires Eligible(arch, finals, tainted, x) && x !in done && Spoils(arch, finals, tainted, side, done + {x}, z)
    ensures
      var key, e := KeyOf(arch, x), FinalExpr(arch, finals, side, x);
      KeyOf(arch, z) in (if e.None? || key in out then collided + {key} else collided)
  {
    EligibleHas(arch, finals, tainted, z);
    hide Eligible, FinalExpr, KeyOf;
    if !Spoils(arch, finals, tainted, side, done, z) && FinalExpr(arch, finals, side, z).Some? {
      var y :| y in done + {x} && Rival(arch, finals, tainted, z, y);
      var other := if z == x then y else z;
      assert other in done && Eligible(arch, finals, tainted, other) && KeyOf(arch, other) == KeyOf(arch, x);
      if KeyOf(arch, x) !in out { assert Spoils(arch, finals, tainted, side, done, other); }
    }
  }

  /** A flag's key is its own. */
  lemma FlagIsFree(arch: Arch, finals: map<Name, Var>, tainted: set<Name>, side: Side, done: set<Name>,
                   out: map<Name, Expr>, collided: set<Name>, x: Name)
    requires Lawful(arch) && Visited(arch, finals, tainted, side, done, out, collided)
    requires x in COMPARABLE_FLAGS && x !in done
    ensures x !in out
  {
    hide FinalExpr, Rival;
    forall y | y in done && Eligible(arch, finals, tainted, y) ensures KeyOf(arch, y) != x {
      assert y in arch.layouts ==> arch.layouts[y].parent !in COMPARABLE_FLAGS;
    }
  }

  /** Everything visited, minus the collided keys, is what the sides speak about. */
  lemma VisitedIsFinals(arch: Arch, finals: map<Name, Var>, tainted: set<Name>, side: Side, out: map<Name, Expr>, collided: set<Name>)
    requires Visited(arch, finals, tainted, side, finals.Keys, out, collided)
    ensures IsFinals(arch, finals, tainted, side, out - collided)
  {
    hide FinalExpr, KeyOf, Eligible;
    forall x | x in finals && Speaks(arch, finals, tainted, side, x)
      ensures KeyOf(arch, x) in out - collided && (out - collided)[KeyOf(arch, x)] == FinalExpr(arch, finals, side, x).value
    {
      SpeaksSurvives(arch, finals, tainted, side, out, collided, x);
    }
    forall key | key in out - collided
      ensures exists x {:trigger KeyOf(arch, x)} :: x in finals && Speaks(arch, finals, tainted, side, x) && KeyOf(arch, x) == key
    {
      var x :| x in finals && Eligible(arch, finals, tainted, x) && KeyOf(arch, x) == key && FinalExpr(arch, finals, side, x) == Some(out[key]);
      assert !Spoils(arch, finals, tainted, side, finals.Keys, x);
      assert Speaks(arch, finals, tainted, side, x) && KeyOf(arch, x) == key;
    }
  }

  lemma SpeaksSurvives(arch: Arch, finals: map<Name, Var>, tainted: set<Name>, side: Side, out: map<Name, Expr>, collided: set<Name>, x: Name)
    requires Visited(arch, finals, tainted, side, finals.Keys, out, collided) && x in finals && Speaks(arch, finals, tainted, side, x)
    ensures KeyOf(arch, x) in out && KeyOf(arch, x) !in collided && out[KeyOf(arch, x)] == FinalExpr(arch, finals, side, x).value
  {
    hide FinalExpr, KeyOf, Eligible;
    var key := KeyOf(arch, x);
    var y :| y in finals && Eligible(arch, finals, tainted, y) && KeyOf(arch, y) == key && FinalExpr(arch, finals, side, y) == Some(out[key]);
    assert y == x || Rival(arch, finals, tainted, x, y);
    forall z | Spoils(arch, finals, tainted, side, finals.Keys, z) ensures KeyOf(arch, z) != key {
      assert KeyOf(arch, z) != key || z == x || Rival(arch, finals, tainted, x, z);
    }
  }

  /** The projection itself: definitions are taken in any order. */
  method CanonicalFinals(arch: Arch, finals: map<Name, Var>, tainted: set<Name>, side: Side) returns (r: map<Name, Expr>)
    requires Lawful(arch)
    ensures IsFinals(arch, finals, tainted, side, r)
  {
    hide Visited, Eligible, IsFinals, ParentSpaceValue;
    var out: map<Name, Expr> := map[];
    var collided: set<Name> := {};
    var todo := finals.Keys;
    NothingVisited(arch, finals, tainted, side);
    while todo != {}
      invariant todo <= finals.Keys && Visited(arch, finals, tainted, side, finals.Keys - todo, out, collided)
      decreases |todo|
    {
      var base :| base in todo;
      ghost var done := finals.Keys - todo;
      ghost var out0, collided0 := out, collided;
      todo := todo - {base};
      assert finals.Keys - todo == done + {base};
      if !Eligible(arch, finals, tainted, base) {
        SkipVisited(arch, finals, tainted, side, done, out, collided, base);
      } else {
        InsertVisited(arch, finals, tainted, side, done, out, collided, base);
        EligibleHas(arch, finals, tainted, base);
        if base in COMPARABLE_FLAGS {
          FlagIsFree(arch, finals, tainted, side, done, out, collided, base);
          out := out[base := Ref(SidedVar(finals[base], side))];
        } else {
          var l := arch.layouts[base];
          var value := ParentSpaceValue(finals[base], side, l, ParentWidth(arch, l.parent));
          match value {
            case None => collided := collided + {l.parent};
            case Some(e) =>
              if l.parent in out { collided := collided + {l.parent}; }
              out := out[l.parent := e];
          }
        }
      }
    }
    assert finals.Keys - todo == finals.Keys;
    VisitedIsFinals(arch, finals, tainted, side, out, collided);
    r := out - collided;
  }

  lemma EligibleHas(arch: Arch, finals: map<Name, Var>, tainted: set<Name>, x: Name)
    requires Eligible(arch, finals, tainted, x)
    ensures x in finals && (x in COMPARABLE_FLAGS || x in arch.layouts)
  {
  }

  lemma NothingVisited(arch: Arch, finals: map<Name, Var>, tainted: set<Name>, side: Side)
    ensures finals.Keys - finals.Keys == {} && Visited(arch, finals, tainted, side, {}, map[], {})
  {
  }
}
