/** Type rewriting done by `CodeGenerator` itself: the touchup table the constructor
    registers for value types that cannot travel in a machine word, and
    `removeUnneededConstness`. */
module TypeRules {
  import opened Support
  import opened Model
  import opened Formatters

  // ---------------------------------------------------------------------------
  // Touchups

  /** The substitute for `float`: a pointer to `const void`, which the generated
      `touchup` fills by reinterpreting the bits. */
  const FLOAT_BOX := Pointer(0, Leaf(VOID, CONST, None))
  /** The substitute for `double`: a pointer to a heap-allocated `const double`. */
  const DOUBLE_BOX := Pointer(0, Leaf(DOUBLE, CONST, None))
  const LONGLONG_BOX := Pointer(0, Plain(LONGLONG))
  const ULONGLONG_BOX := Pointer(0, Plain(ULONGLONG))

  /** The touchup map as the constructor leaves it: four entries keyed by the bare
      primitive types, each mapping to the pointer type the value is boxed in. */
  function InitialTouchups(): (m: map<Type, Type>)
    ensures m.Keys == {Plain(FLOAT), Plain(DOUBLE), Plain(LONGLONG), Plain(ULONGLONG)}
    ensures forall k :: k in m ==> m[k].Pointer? && PointerDegree(m[k]) == 1
    ensures forall k :: k in m ==>
              BaseOf(m[k]) == (if k == Plain(FLOAT) then VOID else BaseOf(k))
  {
    map[Plain(FLOAT) := FLOAT_BOX,
        Plain(DOUBLE) := DOUBLE_BOX,
        Plain(LONGLONG) := LONGLONG_BOX,
        Plain(ULONGLONG) := ULONGLONG_BOX]
  }

  /** The four keys are different types, so the map holds exactly four entries. */
  lemma InitialTouchupsHasFourEntries()
    ensures |InitialTouchups()| == 4
  {
    var m := InitialTouchups();
    var keys := [Plain(FLOAT), Plain(DOUBLE), Plain(LONGLONG), Plain(ULONGLONG)];
    assert m.Keys == {keys[0]} + {keys[1]} + {keys[2]} + {keys[3]};
    assert keys[0].base.name != keys[1].base.name;
    assert keys[0].base.name[0] != keys[2].base.name[0];
    assert keys[0].base.name[0] != keys[3].base.name[0];
    assert keys[1].base.name[0] != keys[2].base.name[0];
    assert keys[1].base.name[0] != keys[3].base.name[0];
    assert keys[2].base.name[0] != keys[3].base.name[0];
  }

  /** `Filters.getTouchup` answers from the table `m`. */
  ghost predicate ConsultsTable(env: Env, m: map<Type, Type>)
  {
    forall t {:trigger env.touchup(t)} :: env.touchup(t) == (if t in m then Some(m[t]) else None)
  }

  /** With the constructor's table in place, a returned expression is boxed exactly when
      its value type is one of the four wide primitives. */
  lemma {:induction false} ExpressionBoxedExactlyForWidePrimitives(env: Env, t: Type, e: string)
    requires ConsultsTable(env, InitialTouchups())
    ensures FormatExpression(env, t, e) != e <==> ValueType(env, t) in InitialTouchups()
    ensures FormatExpression(env, t, e) != e ==> FormatExpression(env, t, e) == "touchup(" + e + ")"
  {
    assert env.touchup(ValueType(env, t)).Some? <==> ValueType(env, t) in InitialTouchups();
  }

  /** With the constructor's table in place, a touched-up declaration is always declared
      with the single-pointer box type. */
  lemma {:induction false} TouchedUpDeclarationIsPointer(env: Env, t: Type, name: string, scheme: char)
    requires ConsultsTable(env, InitialTouchups())
    requires ValueType(env, t) in InitialTouchups()
    ensures DeclarationDeclarator(env, t, name, scheme).0 == InitialTouchups()[ValueType(env, t)]
    ensures PointerDegree(DeclarationDeclarator(env, t, name, scheme).0) == 1
  {
    assert env.touchup(ValueType(env, t)) == Some(InitialTouchups()[ValueType(env, t)]);
  }

  // ---------------------------------------------------------------------------
  // removeUnneededConstness

  /** `removeUnneededConstness(type)`, as written: a type whose root is a leaf over a
      primitive is rebuilt as the bare primitive when `(cv | CONST) != 0`; anything else
      is returned unchanged. */
  function RemoveUnneededConstness(t: Type): (r: Type)
    ensures BaseOf(r) == BaseOf(t) && PointerDegree(r) == PointerDegree(t)
    ensures !(t.Leaf? && t.base.Primitive?) ==> r == t
  {
    if t.Leaf? && t.base.Primitive? && (t.cv | CONST) != 0 then Plain(t.base) else t
  }

  /** The guard of `removeUnneededConstness` can never fail: or-ing in the CONST bit
      always gives a non-zero value, so the "only if const" test is vacuous. */
  lemma ConstnessGuardAlwaysHolds(cv: CV)
    ensures (cv | CONST) != 0
  {
  }

  /** Consequently every leaf primitive loses all its qualifiers, `volatile` included,
      and its template arguments. */
  lemma {:induction false} ConstnessStrippedFromEveryPrimitiveLeaf(t: Type)
    requires t.Leaf? && t.base.Primitive?
    ensures RemoveUnneededConstness(t) == Plain(t.base)
    ensures RemoveUnneededConstness(t).cv & VOLATILE == 0
  {
    ConstnessGuardAlwaysHolds(t.cv);
  }

  lemma {:induction false} RemoveUnneededConstnessIdempotent(t: Type)
    ensures RemoveUnneededConstness(RemoveUnneededConstness(t)) == RemoveUnneededConstness(t)
  {
    if t.Leaf? && t.base.Primitive? {
      ConstnessStrippedFromEveryPrimitiveLeaf(t);
      ConstnessStrippedFromEveryPrimitiveLeaf(Plain(t.base));
    }
  }
}
