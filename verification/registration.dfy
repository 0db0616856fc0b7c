/** The registration tables of `CodeGenerator`: the `RegData` lines of a routine and of a
    variable (`generateRegistrationLine`), the per-class scope table
    (`generateRegistrationPrototype(Scope, …)`) and the top-level `entry[]` table
    (`generateEntry`). The lines are produced after the wrappers, from a later state, and
    the lemmas here show that they point at exactly the wrappers and prototypes that were
    written. */
module Registration {
  import opened Support
  import opened Model
  import opened Identity
  import opened Names
  import opened State
  import opened Wrappers

  // ---------------------------------------------------------------------------
  // generateRegistrationLine(Routine, nSkip, with)

  /** The name a routine is registered under: `%` for an explicit constructor, `*` for
      any other constructor, the short name for a class member in instance form, the
      clean full name otherwise. */
  function RoutineLineName(r: Routine, with: bool): string
  {
    match r.kind
    case Constructor(explicit) => if explicit then "%" else "*"
    case _ => if with && r.container.InAggregate? then r.name else r.cleanName
  }

  /** The registered type of a routine: `constructor`, or the simple form of the return
      transformer's registration type. */
  function RoutineLineType(env: Env, r: Routine, retf: Transformer): string
  {
    if r.IsConstructor() then "constructor" else env.formatSimpleType(retf.regType)
  }

  /** The line for `n` arguments of a routine numbered `u`. */
  function RoutineLine(r: Routine, with: bool, rtype: string, u: nat, n: nat, nSkip: nat, intercepted: bool): (l: RegLine)
    ensures l.Entry? && l.name == RoutineLineName(r, with) && l.rtype == rtype
    ensures l.sym == NULL_SYMBOL <==> intercepted
  {
    SymbolNotNull(WrapperName(u, with, n));
    Entry(RoutineLineName(r, with), rtype, ProtoReference(u, with, n, nSkip),
          if intercepted then NULL_SYMBOL else SymbolOf(WrapperName(u, with, n)))
  }

  /** An implementation pointer is never the null symbol. */
  lemma SymbolNotNull(w: string)
    ensures SymbolOf(w) != NULL_SYMBOL
  {
    assert |SymbolOf(w)| >= 8;
  }

  /** `generateRegistrationLine(routine, nSkip, with)`: the return transformer is deduced
      first (and may be missing); then one line per argument count `minArgs..maxArgs`,
      each pointing at the prototype for that count, skipped `nSkip` entries in, and at the
      wrapper for that count, or at nothing for a routine an interceptor implements. The
      routine is numbered only when there is at least one line; every iteration of the
      generator's loop asks `uid` again and gets the same number. */
  function RoutineRegLines(env: Env, g: GenState, r: Routine, nSkip: nat, with: bool): (res: Result<(seq<RegLine>, GenState)>)
    ensures res.Err? <==> env.deduceReturn(r).Err?
    ensures res.Ok? ==> |res.value.0| == Width(r)
    ensures res.Ok? ==> Later(g, res.value.1) && res.value.1 == g.(uids := res.value.1.uids)
    ensures res.Ok? && Width(r) > 0 ==> r.id in res.value.1.uids.ids
  {
    var retf :- env.deduceReturn(r);
    if Width(r) == 0 then
      LaterReflexive(g);
      Ok(([], g))
    else
      var (u, g1) := Number(g, r.id);
      var rtype := RoutineLineType(env, r, retf);
      var intercepted := r.id in g.interceptorMethods;
      Ok((seq(Width(r), i requires 0 <= i < Width(r) =>
                RoutineLine(r, with, rtype, u, r.minArgs + i, nSkip, intercepted)), g1))
  }

  /** Line `i` of a routine is its line for `minArgs + i` arguments, named after the
      routine's number, with the registered type of its return transformer, and pointing
      at nothing exactly when an interceptor implements the routine. */
  lemma RoutineRegLinesContent(env: Env, g: GenState, r: Routine, nSkip: nat, with: bool)
    requires RoutineRegLines(env, g, r, nSkip, with).Ok?
    ensures forall i :: 0 <= i < |RoutineRegLines(env, g, r, nSkip, with).value.0| ==>
              && r.id in RoutineRegLines(env, g, r, nSkip, with).value.1.uids.ids
              && RoutineRegLines(env, g, r, nSkip, with).value.0[i]
                 == RoutineLine(r, with, RoutineLineType(env, r, env.deduceReturn(r).value),
                                RoutineRegLines(env, g, r, nSkip, with).value.1.uids.ids[r.id],
                                r.minArgs + i, nSkip, r.id in g.interceptorMethods)
  {
  }

  /** Once the routine is numbered, writing its lines leaves the state as it was. */
  lemma {:induction false} RoutineRegLinesNumbered(env: Env, g: GenState, r: Routine, nSkip: nat, with: bool)
    requires r.id in g.uids.ids
    requires RoutineRegLines(env, g, r, nSkip, with).Ok?
    ensures RoutineRegLines(env, g, r, nSkip, with).value.1 == g
  {
    LaterReflexive(g);
    NumberStable(g, g, r.id);
  }

  /** Name agreement between the wrapper loop and the registration loop: when the
      registration lines of a routine are written in any state later than the one its
      overloads left, with the same answer to "is this an interceptor method", line `i`
      points at the prototype of overload `i` (offset by `nSkip`), at nothing exactly when
      the routine is an interceptor method, and otherwise at the wrapper of overload `i`.
      The wrapper is missing only when the class loop (`with`) met an interceptor method,
      so for a class routine the line is null exactly when no wrapper was written. */
  lemma {:induction false} RoutineLinesMatchOverloads(env: Env, g: GenState, h: GenState, r: Routine, with: bool, nSkip: nat)
    requires ExpandRoutine(env, g, r, with).Ok?
    requires Later(ExpandRoutine(env, g, r, with).value.1, h)
    requires (r.id in h.interceptorMethods) == (r.id in g.interceptorMethods)
    requires RoutineRegLines(env, h, r, nSkip, with).Ok?
    ensures var os := ExpandRoutine(env, g, r, with).value.0;
            var lines := RoutineRegLines(env, h, r, nSkip, with).value.0;
            && |lines| == |os|
            && forall i :: 0 <= i < |os| ==>
                 && lines[i].Entry?
                 && lines[i].proto == os[i].proto.name + "+" + NatToString(nSkip)
                 && (lines[i].sym == NULL_SYMBOL <==> r.id in g.interceptorMethods)
                 && (os[i].wrapper.None? <==> with && r.id in g.interceptorMethods)
                 && (os[i].wrapper.Some? && r.id !in g.interceptorMethods ==>
                       lines[i].sym == SymbolOf(os[i].wrapper.value.name))
  {
    var os := ExpandRoutine(env, g, r, with).value.0;
    var g1 := ExpandRoutine(env, g, r, with).value.1;
    if Width(r) > 0 {
      var u := g1.uids.ids[r.id];
      assert h.uids.ids[r.id] == u;
      RoutineRegLinesNumbered(env, h, r, nSkip, with);
      RoutineRegLinesContent(env, h, r, nSkip, with);
      var lines := RoutineRegLines(env, h, r, nSkip, with).value.0;
      forall i | 0 <= i < |os|
        ensures && lines[i].Entry?
                && lines[i].proto == os[i].proto.name + "+" + NatToString(nSkip)
                && (lines[i].sym == NULL_SYMBOL <==> r.id in g.interceptorMethods)
                && (os[i].wrapper.None? <==> with && r.id in g.interceptorMethods)
                && (os[i].wrapper.Some? && r.id !in g.interceptorMethods ==>
                      lines[i].sym == SymbolOf(os[i].wrapper.value.name))
      {
        assert OverloadNamed(os[i], u, with, r.minArgs + i, !(with && r.id in g.interceptorMethods));
        if os[i].wrapper.Some? && r.id !in g.interceptorMethods {
          SymbolNotNull(os[i].wrapper.value.name);
        }
      }
    }
  }

  // ---------------------------------------------------------------------------
  // generateRegistrationLine(Field, with)

  /** The identifier a variable is registered under: its short name for a class member in
      instance form, its clean full name otherwise. */
  function FieldIdentifier(f: Field, with: bool): string
  {
    if f.container.InAggregate? && with then f.name else f.cleanName
  }

  /** `generateRegistrationLine(field, with)`: the getter line `.data_<id>`, and the
      setter line `.sink_<id>` when the variable can be assigned. The variable's return
      transformer is deduced first and may be missing. */
  function FieldRegLines(env: Env, g: GenState, f: Field, with: bool): (res: Result<(seq<RegLine>, GenState)>)
    ensures res.Err? <==> env.deduceVariable(f.ftype).Err?
    ensures res.Ok? ==>
              var (lines, h) := res.value;
              && Later(g, h) && h == g.(uids := h.uids)
              && f.id in h.uids.ids
              && |lines| == (if f.hasSetter then 2 else 1)
              && lines[0] == Entry(".data_" + FieldIdentifier(f, with),
                                   env.formatSimpleType(env.deduceVariable(f.ftype).value.regType),
                                   NULL_SYMBOL, SymbolOf(GetterName(h.uids.ids[f.id], with)))
              && (f.hasSetter ==>
                    lines[1] == Entry(".sink_" + FieldIdentifier(f, with), "void",
                                      SinkProtoName(h.uids.ids[f.id], with),
                                      SymbolOf(SetterName(h.uids.ids[f.id], with))))
  {
    var retf :- env.deduceVariable(f.ftype);
    var ident := FieldIdentifier(f, with);
    var (u, g1) := Number(g, f.id);
    var data := Entry(".data_" + ident, env.formatSimpleType(retf.regType), NULL_SYMBOL, SymbolOf(GetterName(u, with)));
    if f.hasSetter then
      Ok(([data, Entry(".sink_" + ident, "void", SinkProtoName(u, with), SymbolOf(SetterName(u, with)))], g1))
    else
      Ok(([data], g1))
  }

  /** The variable's lines point at the accessors written for it earlier: the getter, and
      the setter with its prototype exactly when a setter was written. */
  lemma FieldLinesMatchAccessors(env: Env, g: GenState, h: GenState, f: Field, with: bool)
    requires FieldAccessors(env, g, f, with, false).Ok?
    requires Later(FieldAccessors(env, g, f, with, false).value.1, h)
    requires FieldRegLines(env, h, f, with).Ok?
    ensures var w := FieldAccessors(env, g, f, with, false).value.0;
            var lines := FieldRegLines(env, h, f, with).value.0;
            && lines[0].sym == SymbolOf(w.getter)
            && (|lines| == 2 <==> w.setter.Some?)
            && (w.setter.Some? ==>
                  lines[1].sym == SymbolOf(w.setter.value.name) && lines[1].proto == w.sink.value.name)
  {
    var g1 := FieldAccessors(env, g, f, with, false).value.1;
    NumberStable(g1, h, f.id);
  }

  // ---------------------------------------------------------------------------
  // Lists of routines and variables

  /** The number of lines a list of routines registers. */
  function Widths(rs: seq<Routine>): nat
  {
    if |rs| == 0 then 0 else Width(rs[0]) + Widths(rs[1..])
  }

  lemma {:induction false} WidthsPrefix(rs: seq<Routine>, k: nat)
    requires 0 < k <= |rs|
    ensures Widths(rs[..k]) == Width(rs[0]) + Widths(rs[1..][..k - 1])
  {
    assert rs[..k][1..] == rs[1..][..k - 1];
  }

  /** The lines of several routines, one after the other. */
  function RoutinesRegLines(env: Env, g: GenState, rs: seq<Routine>, nSkip: nat, with: bool): (res: Result<(seq<RegLine>, GenState)>)
    ensures res.Ok? ==> |res.value.0| == Widths(rs)
    ensures res.Ok? ==> Later(g, res.value.1) && res.value.1 == g.(uids := res.value.1.uids)
    decreases |rs|
  {
    if |rs| == 0 then
      LaterReflexive(g);
      Ok(([], g))
    else
      var first := RoutineRegLines(env, g, rs[0], nSkip, with);
      if first.Err? then Err(first.failure)
      else
        var rest := RoutinesRegLines(env, first.value.1, rs[1..], nSkip, with);
        if rest.Err? then Err(rest.failure)
        else
          LaterTransitive(g, first.value.1, rest.value.1);
          Ok((first.value.0 + rest.value.0, rest.value.1))
  }

  /** A non-empty list registers its first routine, then the rest from the state the
      first one leaves. */
  lemma RoutinesRegLinesUnfold(env: Env, g: GenState, rs: seq<Routine>, nSkip: nat, with: bool)
    requires |rs| > 0 && RoutinesRegLines(env, g, rs, nSkip, with).Ok?
    ensures RoutineRegLines(env, g, rs[0], nSkip, with).Ok?
    ensures RoutinesRegLines(env, RoutineRegLines(env, g, rs[0], nSkip, with).value.1, rs[1..], nSkip, with).Ok?
    ensures RoutinesRegLines(env, g, rs, nSkip, with).value.0
            == RoutineRegLines(env, g, rs[0], nSkip, with).value.0
               + RoutinesRegLines(env, RoutineRegLines(env, g, rs[0], nSkip, with).value.1, rs[1..], nSkip, with).value.0
    ensures RoutinesRegLines(env, g, rs, nSkip, with).value.1
            == RoutinesRegLines(env, RoutineRegLines(env, g, rs[0], nSkip, with).value.1, rs[1..], nSkip, with).value.1
  {
  }

  /** `lines[at]` is the line of routine `r` for `minArgs + i` arguments, named after the
      routine's number in `h`. */
  ghost predicate RoutineLineAt(env: Env, lines: seq<RegLine>, h: GenState, at: nat, r: Routine, with: bool,
                                i: nat, nSkip: nat, intercepted: bool)
  {
    && env.deduceReturn(r).Ok?
    && r.id in h.uids.ids
    && at < |lines|
    && lines[at] == RoutineLine(r, with, RoutineLineType(env, r, env.deduceReturn(r).value),
                                h.uids.ids[r.id], r.minArgs + i, nSkip, intercepted)
  }

  /** Routine `k` of the list owns the lines from `Widths(rs[..k])` on: its line for
      `minArgs + i` arguments sits at `Widths(rs[..k]) + i`, named after its number in the
      final state. */
  lemma {:induction false} RoutinesRegLinesAt(env: Env, g: GenState, rs: seq<Routine>, nSkip: nat, with: bool, k: nat, i: nat)
    requires RoutinesRegLines(env, g, rs, nSkip, with).Ok?
    requires k < |rs| && i < Width(rs[k])
    ensures RoutineLineAt(env, RoutinesRegLines(env, g, rs, nSkip, with).value.0,
                          RoutinesRegLines(env, g, rs, nSkip, with).value.1,
                          Widths(rs[..k]) + i, rs[k], with, i, nSkip, rs[k].id in g.interceptorMethods)
    decreases k, 1
  {
    if k == 0 {
      RoutinesRegLinesUnfold(env, g, rs, nSkip, with);
      var first := RoutineRegLines(env, g, rs[0], nSkip, with).value;
      var rest := RoutinesRegLines(env, first.1, rs[1..], nSkip, with).value;
      RoutinesRegLinesFirst(env, g, rs, nSkip, with, i, first, rest);
    } else {
      RoutinesRegLinesStep(env, g, rs, nSkip, with, k, i);
    }
  }

  /** The inductive step of `RoutinesRegLinesAt`, for a routine after the first. */
  lemma {:induction false} RoutinesRegLinesStep(env: Env, g: GenState, rs: seq<Routine>, nSkip: nat, with: bool, k: nat, i: nat)
    requires RoutinesRegLines(env, g, rs, nSkip, with).Ok?
    requires 0 < k < |rs| && i < Width(rs[k])
    ensures RoutineLineAt(env, RoutinesRegLines(env, g, rs, nSkip, with).value.0,
                          RoutinesRegLines(env, g, rs, nSkip, with).value.1,
                          Widths(rs[..k]) + i, rs[k], with, i, nSkip, rs[k].id in g.interceptorMethods)
    decreases k, 0
  {
    assert rs[1..][k - 1] == rs[k];
    WidthsPrefix(rs, k);
    RoutinesRegLinesUnfold(env, g, rs, nSkip, with);
    var first := RoutineRegLines(env, g, rs[0], nSkip, with).value;
    var rest := RoutinesRegLines(env, first.1, rs[1..], nSkip, with).value;
    RoutinesRegLinesAt(env, first.1, rs[1..], nSkip, with, k - 1, i);
    assert RoutineRegLines(env, g, rs[0], nSkip, with) == Ok(first);
    assert RoutineLineAt(env, rest.0, rest.1, Widths(rs[1..][..k - 1]) + i, rs[1..][k - 1], with, i, nSkip,
                           rs[1..][k - 1].id in first.1.interceptorMethods);
    RoutinesRegLinesLater(env, g, rs, nSkip, with, k, i, first, rest);
  }

  /** The base case: the first routine's lines open the list. */
  lemma RoutinesRegLinesFirst(env: Env, g: GenState, rs: seq<Routine>, nSkip: nat, with: bool, i: nat,
                              first: (seq<RegLine>, GenState), rest: (seq<RegLine>, GenState))
    requires |rs| > 0 && i < Width(rs[0])
    requires RoutineRegLines(env, g, rs[0], nSkip, with) == Ok(first)
    requires RoutinesRegLines(env, first.1, rs[1..], nSkip, with) == Ok(rest)
    ensures RoutineLineAt(env, first.0 + rest.0, rest.1, Widths(rs[..0]) + i, rs[0], with, i, nSkip,
                          rs[0].id in g.interceptorMethods)
  {
    RoutineRegLinesContent(env, g, rs[0], nSkip, with);
    assert rs[..0] == [];
    assert Widths(rs[..0]) == 0;
    assert rest.1.uids.ids[rs[0].id] == first.1.uids.ids[rs[0].id];
  }

  /** The step: a later routine's lines sit after the first routine's lines, numbered as
      in the rest of the list. */
  lemma RoutinesRegLinesLater(env: Env, g: GenState, rs: seq<Routine>, nSkip: nat, with: bool, k: nat, i: nat,
                              first: (seq<RegLine>, GenState), rest: (seq<RegLine>, GenState))
    requires 0 < k < |rs|
    requires RoutineRegLines(env, g, rs[0], nSkip, with) == Ok(first)
    requires Widths(rs[..k]) == Width(rs[0]) + Widths(rs[1..][..k - 1])
    requires RoutineLineAt(env, rest.0, rest.1, Widths(rs[1..][..k - 1]) + i, rs[1..][k - 1], with, i, nSkip,
                           rs[1..][k - 1].id in first.1.interceptorMethods)
    ensures RoutineLineAt(env, first.0 + rest.0, rest.1, Widths(rs[..k]) + i, rs[k], with, i, nSkip,
                          rs[k].id in g.interceptorMethods)
  {
    assert rs[1..][k - 1] == rs[k];
    assert first.1.interceptorMethods == g.interceptorMethods;
  }

  /** The filter shared by the method loop of `generateRoutineWrappers` and the routine
      loop of the scope table: public, not a destructor, available, and not a constructor
      of an abstract class. */
  predicate Listed(r: Routine, isAbstract: bool)
  {
    !(r.IsConstructor() && isAbstract) && r.vis == Public && !r.IsDestructor() && r.available
  }

  function ListedRoutines(rs: seq<Routine>, isAbstract: bool): seq<Routine>
  {
    if |rs| == 0 then []
    else (if Listed(rs[0], isAbstract) then [rs[0]] else []) + ListedRoutines(rs[1..], isAbstract)
  }

  /** The filter keeps exactly the routines that pass it. */
  lemma {:induction false} ListedRoutinesMembers(rs: seq<Routine>, isAbstract: bool)
    ensures forall r :: r in ListedRoutines(rs, isAbstract) <==> r in rs && Listed(r, isAbstract)
  {
    if |rs| > 0 {
      ListedRoutinesMembers(rs[1..], isAbstract);
      assert forall r :: r in rs <==> r == rs[0] || r in rs[1..];
    }
  }

  /** When every routine passes the filter, the list is kept whole. */
  lemma {:induction false} ListedRoutinesAll(rs: seq<Routine>, isAbstract: bool)
    requires forall i :: 0 <= i < |rs| ==> Listed(rs[i], isAbstract)
    ensures ListedRoutines(rs, isAbstract) == rs
  {
    if |rs| > 0 {
      ListedRoutinesAll(rs[1..], isAbstract);
      assert [rs[0]] + rs[1..] == rs;
    }
  }

  /** The available routines, in order (`Filters.isAvailable`). */
  function AvailableRoutines(rs: seq<Routine>): seq<Routine>
  {
    if |rs| == 0 then []
    else (if rs[0].available then [rs[0]] else []) + AvailableRoutines(rs[1..])
  }

  lemma {:induction false} AvailableRoutinesMembers(rs: seq<Routine>)
    ensures forall r :: r in AvailableRoutines(rs) <==> r in rs && r.available
  {
    if |rs| > 0 {
      AvailableRoutinesMembers(rs[1..]);
      assert forall r :: r in rs <==> r == rs[0] || r in rs[1..];
    }
  }

  /** The available variables, in order. */
  function AvailableFields(fs: seq<Field>): seq<Field>
  {
    if |fs| == 0 then []
    else (if fs[0].available then [fs[0]] else []) + AvailableFields(fs[1..])
  }

  lemma {:induction false} AvailableFieldsMembers(fs: seq<Field>)
    ensures forall f :: f in AvailableFields(fs) <==> f in fs && f.available
  {
    if |fs| > 0 {
      AvailableFieldsMembers(fs[1..]);
      assert forall f :: f in fs <==> f == fs[0] || f in fs[1..];
    }
  }

  /** Whether a listed routine is a constructor (the `ctors` flag of `generateRegistrationPrototype`). */
  predicate HasConstructor(rs: seq<Routine>)
  {
    exists i :: 0 <= i < |rs| && rs[i].IsConstructor()
  }

  /** The number of lines a list of variables registers: two for one with a setter. */
  function FieldLineCount(fs: seq<Field>): nat
  {
    if |fs| == 0 then 0 else (if fs[0].hasSetter then 2 else 1) + FieldLineCount(fs[1..])
  }

  /** The lines of several variables, one after the other. */
  function FieldsRegLines(env: Env, g: GenState, fs: seq<Field>, with: bool): (res: Result<(seq<RegLine>, GenState)>)
    ensures res.Ok? ==> |res.value.0| == FieldLineCount(fs)
    ensures res.Ok? ==> Later(g, res.value.1) && res.value.1 == g.(uids := res.value.1.uids)
    decreases |fs|
  {
    if |fs| == 0 then
      LaterReflexive(g);
      Ok(([], g))
    else
      var first := FieldRegLines(env, g, fs[0], with);
      if first.Err? then Err(first.failure)
      else
        var rest := FieldsRegLines(env, first.value.1, fs[1..], with);
        if rest.Err? then Err(rest.failure)
        else
          LaterTransitive(g, first.value.1, rest.value.1);
          Ok((first.value.0 + rest.value.0, rest.value.1))
  }

  /** A list of routines registers exactly when every one of them has its return
      transformer; the first missing one aborts the list. */
  lemma {:induction false} RoutinesRegLinesSucceed(env: Env, g: GenState, rs: seq<Routine>, nSkip: nat, with: bool)
    ensures RoutinesRegLines(env, g, rs, nSkip, with).Ok? <==> forall r :: r in rs ==> env.deduceReturn(r).Ok?
    decreases |rs|
  {
    if |rs| > 0 {
      var first := RoutineRegLines(env, g, rs[0], nSkip, with);
      if first.Ok? {
        RoutinesRegLinesSucceed(env, first.value.1, rs[1..], nSkip, with);
        assert forall r :: r in rs ==> r == rs[0] || r in rs[1..];
      }
    }
  }

  /** Every routine line is a real entry. */
  lemma {:induction false} RoutinesRegLinesEntries(env: Env, g: GenState, rs: seq<Routine>, nSkip: nat, with: bool)
    requires RoutinesRegLines(env, g, rs, nSkip, with).Ok?
    ensures AllEntries(RoutinesRegLines(env, g, rs, nSkip, with).value.0)
    decreases |rs|
  {
    if |rs| > 0 {
      RoutinesRegLinesUnfold(env, g, rs, nSkip, with);
      var first := RoutineRegLines(env, g, rs[0], nSkip, with).value;
      RoutineRegLinesContent(env, g, rs[0], nSkip, with);
      RoutinesRegLinesEntries(env, first.1, rs[1..], nSkip, with);
      AllEntriesAppend(first.0, RoutinesRegLines(env, first.1, rs[1..], nSkip, with).value.0);
    }
  }

  /** A list of variables registers exactly when every one of them has its transformer. */
  lemma {:induction false} FieldsRegLinesSucceed(env: Env, g: GenState, fs: seq<Field>, with: bool)
    ensures FieldsRegLines(env, g, fs, with).Ok? <==> forall f :: f in fs ==> env.deduceVariable(f.ftype).Ok?
    decreases |fs|
  {
    if |fs| > 0 {
      var first := FieldRegLines(env, g, fs[0], with);
      if first.Ok? {
        FieldsRegLinesSucceed(env, first.value.1, fs[1..], with);
        assert forall f :: f in fs ==> f == fs[0] || f in fs[1..];
      }
    }
  }

  /** Every variable line is a real entry. */
  lemma {:induction false} FieldsRegLinesEntries(env: Env, g: GenState, fs: seq<Field>, with: bool)
    requires FieldsRegLines(env, g, fs, with).Ok?
    ensures AllEntries(FieldsRegLines(env, g, fs, with).value.0)
    decreases |fs|
  {
    if |fs| > 0 {
      var first := FieldRegLines(env, g, fs[0], with).value;
      var rest := FieldsRegLines(env, first.1, fs[1..], with).value;
      FieldsRegLinesEntries(env, first.1, fs[1..], with);
      assert FieldsRegLines(env, g, fs, with).value.0 == first.0 + rest.0;
      AllEntriesAppend(first.0, rest.0);
    }
  }

  // ---------------------------------------------------------------------------
  // generateRegistrationPrototype(Scope, …)

  /** The `extends` lines for the given (public) bases, each pointing at the upcast from
      the class to that base. `generateRegistrationPrototype` walks every base and skips
      the non-public ones, which has no effect on the state, so the model walks the public
      bases alone. */
  function ExtendsLines(g: GenState, scope: ObjId, cs: seq<Inheritance>): (res: (seq<RegLine>, GenState))
    ensures |res.0| == |cs|
    ensures Later(g, res.1) && res.1 == g.(uids := res.1.uids)
    ensures forall i :: 0 <= i < |cs| ==>
              res.0[i].Entry? && res.0[i].name == cs[i].actualName && res.0[i].rtype == "extends"
              && res.0[i].proto == NULL_SYMBOL
    decreases |cs|
  {
    if |cs| == 0 then
      LaterReflexive(g);
      ([], g)
    else
      var (d, g1) := Number(g, scope);
      var (b, g2) := Number(g1, cs[0].baseScope);
      var rest := ExtendsLines(g2, scope, cs[1..]);
      LaterTransitive(g, g1, g2);
      LaterTransitive(g, g2, rest.1);
      ([Entry(cs[0].actualName, "extends", NULL_SYMBOL, SymbolOf(UpcastName(d, b)))] + rest.0, rest.1)
  }

  /** With the class and every base already numbered, the `extends` lines point at the
      upcasts named after those numbers, and the state does not change. */
  lemma {:induction false} ExtendsLinesNumbered(g: GenState, scope: ObjId, derived: string, cs: seq<Inheritance>, ups: seq<Upcast>)
    requires UpcastsNamed(g, scope, derived, cs, ups)
    ensures ExtendsLines(g, scope, cs).1 == g
    ensures forall i :: 0 <= i < |cs| ==> ExtendsLines(g, scope, cs).0[i].sym == SymbolOf(ups[i].name)
    decreases |cs|
  {
    if |cs| > 0 {
      assert UpcastNamed(g, scope, derived, cs[0], ups[0]);
      LaterReflexive(g);
      NumberStable(g, g, scope);
      NumberStable(g, g, cs[0].baseScope);
      assert UpcastsNamed(g, scope, derived, cs[1..], ups[1..]) by {
        forall i | 0 <= i < |ups[1..]| ensures UpcastNamed(g, scope, derived, cs[1..][i], ups[1..][i]) {
          assert UpcastNamed(g, scope, derived, cs[i + 1], ups[i + 1]);
        }
      }
      ExtendsLinesNumbered(g, scope, derived, cs[1..], ups[1..]);
    }
  }

  /** The `extends` lines of the scope table point at exactly the upcasts that
      `generateUpDownCastFlatWrappers` wrote for the public bases, in order, when the
      table is written in any later state. */
  lemma ExtendsMatchUpcasts(g0: GenState, g: GenState, scope: ObjId, derived: string, bases: seq<Inheritance>)
    requires Later(Casts(g0, scope, derived, bases).2, g)
    ensures var ups := Casts(g0, scope, derived, bases).0;
            var lines := ExtendsLines(g, scope, PublicBases(bases)).0;
            && |lines| == |ups|
            && forall i :: 0 <= i < |ups| ==>
                 lines[i].name == PublicBases(bases)[i].actualName && lines[i].sym == SymbolOf(ups[i].name)
  {
    var c := Casts(g0, scope, derived, bases);
    CastsUpNamed(g0, scope, derived, bases);
    UpcastsNamedStable(c.2, g, scope, derived, PublicBases(bases), c.0);
    ExtendsLinesNumbered(g, scope, derived, PublicBases(bases), c.0);
  }

  /** The arguments of `generateRegistrationPrototype(scope, …)`: the scope (its number
      key and opaque hash tag), the class name, the inheritance list, the routines and
      variables of the scope, the flags, and the globally scoped operators. */
  datatype ScopeRequest = ScopeRequest(
    scope: ObjId,
    scopeTag: string,
    classname: string,
    bases: seq<Inheritance>,
    routines: seq<Routine>,
    fields: seq<Field>,
    isAbstract: bool,
    mustHaveCtor: bool,
    hasAssign: bool,
    hasClone: bool,
    hasOutput: bool,
    hasDtor: bool,
    with: bool,
    additional: seq<Routine>)

  /** The request `generateEntry` makes for a class: destructor line and instance form
      always on. */
  function RequestFor(a: Aggregate): ScopeRequest
  {
    ScopeRequest(a.scope, a.scopeTag, a.cleanName, a.bases, a.routines, a.fields,
                 a.traits.isAbstract, a.traits.mustHaveCtor, a.traits.assignable,
                 a.traits.cloneable, a.traits.hasOutput, true, true, a.operators)
  }

  /** Whether the table gets the synthetic `*` constructor line. */
  predicate AddsDefaultConstructor(req: ScopeRequest, ctors: bool)
  {
    !ctors && req.mustHaveCtor && !req.isAbstract
  }

  /** The names of the special lines, in the order they are written. */
  function SpecialNames(req: ScopeRequest, ctors: bool): seq<string>
  {
    (if AddsDefaultConstructor(req, ctors) then ["*"] else [])
    + (if req.hasAssign then ["operator="] else [])
    + (if req.hasClone then ["clone"] else [])
    + (if req.hasOutput then [".print", ".string"] else [])
    + (if req.hasDtor then ["."] else [])
  }

  /** The special wrapper a special line points at, by the line's name. */
  function SpecialPrefix(name: string): string
  {
    if name == "*" then DEFAULT_CTOR_PREFIX
    else if name == "operator=" then ASSIGN_PREFIX
    else if name == "clone" then CLONE_PREFIX
    else if name == ".print" then OUTPUT_PREFIX
    else if name == ".string" then TO_STRING_PREFIX
    else DTOR_PREFIX
  }

  /** The registered type and prototype of a special line, by its name. */
  function SpecialTypeAndProto(name: string, classname: string, u: nat): (string, string)
  {
    if name == "*" then ("constructor", NULL_SYMBOL)
    else if name == "operator=" then ("void", ScopeWrapperName(ASSIGN_PREFIX, u) + "_proto")
    else if name == "clone" then ("*" + classname, NULL_SYMBOL)
    else if name == ".print" then ("void", NULL_SYMBOL)
    else if name == ".string" then ("@string", NULL_SYMBOL)
    else ("destructor", NULL_SYMBOL)
  }

  /** The special lines of a class numbered `u`: default constructor, assignment, clone,
      printing and string conversion, destructor, each when requested, each pointing at
      the special wrapper of its kind. */
  function SpecialLinesFor(req: ScopeRequest, ctors: bool, u: nat): (lines: seq<RegLine>)
    ensures |lines| == |SpecialNames(req, ctors)|
    ensures forall i :: 0 <= i < |lines| ==>
              && lines[i].Entry?
              && lines[i].name == SpecialNames(req, ctors)[i]
              && lines[i].sym == SymbolOf(ScopeWrapperName(SpecialPrefix(lines[i].name), u))
  {
    var names := SpecialNames(req, ctors);
    seq(|names|, i requires 0 <= i < |names| =>
          var tp := SpecialTypeAndProto(names[i], req.classname, u);
          Entry(names[i], tp.0, tp.1, SymbolOf(ScopeWrapperName(SpecialPrefix(names[i]), u))))
  }

  /** The special lines; the scope is numbered only if one of them is written. */
  function SpecialLines(g: GenState, req: ScopeRequest, ctors: bool): (res: (seq<RegLine>, GenState))
    ensures Later(g, res.1) && res.1 == g.(uids := res.1.uids)
    ensures |res.0| == |SpecialNames(req, ctors)|
    ensures |res.0| > 0 ==> req.scope in res.1.uids.ids && res.0 == SpecialLinesFor(req, ctors, res.1.uids.ids[req.scope])
  {
    if |SpecialNames(req, ctors)| == 0 then
      LaterReflexive(g);
      ([], g)
    else
      var (u, g1) := Number(g, req.scope);
      (SpecialLinesFor(req, ctors, u), g1)
  }

  /** A scope table: `scope_<tag>` and its lines. */
  datatype ScopeTable = ScopeTable(name: string, lines: seq<RegLine>)

  /** The sections of a scope table, before the sentinel. */
  datatype ScopeSections = ScopeSections(
    bases: seq<RegLine>,
    routines: seq<RegLine>,
    fields: seq<RegLine>,
    specials: seq<RegLine>,
    additional: seq<RegLine>)

  /** The lines of the sections, in order. */
  function SectionLines(sec: ScopeSections): seq<RegLine>
  {
    sec.bases + sec.routines + sec.fields + sec.specials + sec.additional
  }

  lemma SectionRoutineIndex(sec: ScopeSections, j: nat)
    requires j < |sec.routines|
    ensures |sec.bases| + j < |SectionLines(sec)|
    ensures SectionLines(sec)[|sec.bases| + j] == sec.routines[j]
  {
    var tail := sec.fields + sec.specials + sec.additional;
    assert SectionLines(sec) == (sec.bases + sec.routines) + tail;
  }

  /** `generateRegistrationPrototype(scope, …)` up to the sentinel: the sections in the
      order they are written, and the state after them. */
  function ScopeSectionsOf(env: Env, g: GenState, req: ScopeRequest): (res: Result<(ScopeSections, GenState)>)
    ensures res.Ok? ==> Later(g, res.value.1) && res.value.1 == g.(uids := res.value.1.uids)
  {
    var listed := ListedRoutines(req.routines, req.isAbstract);
    var ext := ExtendsLines(g, req.scope, PublicBases(req.bases));
    var rl :- RoutinesRegLines(env, ext.1, listed, 0, req.with);
    var fl :- FieldsRegLines(env, rl.1, AvailableFields(req.fields), true);
    var sp := SpecialLines(fl.1, req, HasConstructor(listed));
    var al :- RoutinesRegLines(env, sp.1, AvailableRoutines(req.additional), 1, false);
    LaterTransitive(g, ext.1, rl.1);
    LaterTransitive(g, rl.1, fl.1);
    LaterTransitive(g, fl.1, sp.1);
    LaterTransitive(g, sp.1, al.1);
    Ok((ScopeSections(ext.0, rl.0, fl.0, sp.0, al.0), al.1))
  }

  /** The table can be written exactly when every listed routine, every available
      variable and every available operator has its return transformer. */
  lemma ScopeSectionsSucceed(env: Env, g: GenState, req: ScopeRequest)
    ensures ScopeSectionsOf(env, g, req).Ok? <==>
              && (forall r :: r in ListedRoutines(req.routines, req.isAbstract) ==> env.deduceReturn(r).Ok?)
              && (forall f :: f in AvailableFields(req.fields) ==> env.deduceVariable(f.ftype).Ok?)
              && (forall r :: r in AvailableRoutines(req.additional) ==> env.deduceReturn(r).Ok?)
  {
    var listed := ListedRoutines(req.routines, req.isAbstract);
    var ext := ExtendsLines(g, req.scope, PublicBases(req.bases));
    var rl := RoutinesRegLines(env, ext.1, listed, 0, req.with);
    RoutinesRegLinesSucceed(env, ext.1, listed, 0, req.with);
    if rl.Ok? {
      var fl := FieldsRegLines(env, rl.value.1, AvailableFields(req.fields), true);
      FieldsRegLinesSucceed(env, rl.value.1, AvailableFields(req.fields), true);
      if fl.Ok? {
        var sp := SpecialLines(fl.value.1, req, HasConstructor(listed));
        RoutinesRegLinesSucceed(env, sp.1, AvailableRoutines(req.additional), 1, false);
      }
    }
  }

  /** Each section has as many lines as its sources register. */
  lemma ScopeSectionsSizes(env: Env, g: GenState, req: ScopeRequest)
    requires ScopeSectionsOf(env, g, req).Ok?
    ensures var sec := ScopeSectionsOf(env, g, req).value.0;
            && |sec.bases| == |PublicBases(req.bases)|
            && |sec.routines| == Widths(ListedRoutines(req.routines, req.isAbstract))
            && |sec.fields| == FieldLineCount(AvailableFields(req.fields))
            && |sec.specials| == |SpecialNames(req, HasConstructor(ListedRoutines(req.routines, req.isAbstract)))|
            && |sec.additional| == Widths(AvailableRoutines(req.additional))
  {
  }

  /** The synthetic `*` constructor line is written exactly when the class lists no
      constructor, must have one, and is not abstract. */
  lemma DefaultConstructorLine(req: ScopeRequest, ctors: bool)
    ensures "*" in SpecialNames(req, ctors) <==> AddsDefaultConstructor(req, ctors)
  {
    var a: seq<string> := if req.hasAssign then ["operator="] else [];
    var c: seq<string> := if req.hasClone then ["clone"] else [];
    var o: seq<string> := if req.hasOutput then [".print", ".string"] else [];
    var d: seq<string> := if req.hasDtor then ["."] else [];
    assert "*" !in a && "*" !in c && "*" !in o && "*" !in d;
    assert SpecialNames(req, ctors) == (if AddsDefaultConstructor(req, ctors) then ["*"] else []) + a + c + o + d;
  }

  /** `generateRegistrationPrototype(scope, …)`: the table `scope_<tag>`, its sections in
      order, then the `{ 0,0,0,0 }` sentinel. */
  function ScopeTableOf(env: Env, g: GenState, req: ScopeRequest): (res: Result<(ScopeTable, GenState)>)
    ensures res.Ok? <==> ScopeSectionsOf(env, g, req).Ok?
    ensures res.Ok? ==> Later(g, res.value.1) && res.value.1 == g.(uids := res.value.1.uids)
    ensures res.Ok? ==>
              && res.value.0.name == ScopeTableName(req.scopeTag)
              && res.value.1 == ScopeSectionsOf(env, g, req).value.1
              && res.value.0.lines == SectionLines(ScopeSectionsOf(env, g, req).value.0) + [EndOfList]
  {
    var (sec, h) :- ScopeSectionsOf(env, g, req);
    Ok((ScopeTable(ScopeTableName(req.scopeTag), SectionLines(sec) + [EndOfList]), h))
  }

  /** The layout of a scope table: its length is the sum of its sections plus the
      sentinel, the sentinel comes last and only there, and the first lines are the
      `extends` lines of the public bases in order. */
  lemma ScopeTableLayout(env: Env, g: GenState, req: ScopeRequest)
    requires ScopeTableOf(env, g, req).Ok?
    ensures var t := ScopeTableOf(env, g, req).value.0;
            && |t.lines| == |PublicBases(req.bases)| + Widths(ListedRoutines(req.routines, req.isAbstract))
                            + FieldLineCount(AvailableFields(req.fields))
                            + |SpecialNames(req, HasConstructor(ListedRoutines(req.routines, req.isAbstract)))|
                            + Widths(AvailableRoutines(req.additional)) + 1
            && t.lines[|t.lines| - 1] == EndOfList
            && (forall i :: 0 <= i < |t.lines| - 1 ==> t.lines[i].Entry?)
            && (forall i :: 0 <= i < |PublicBases(req.bases)| ==>
                  t.lines[i].name == PublicBases(req.bases)[i].actualName && t.lines[i].rtype == "extends")
  {
    var sec := ScopeSectionsOf(env, g, req).value.0;
    var t := ScopeTableOf(env, g, req).value.0;
    ScopeSectionsSizes(env, g, req);
    ScopeSectionsEntries(env, g, req);
    var ext := ExtendsLines(g, req.scope, PublicBases(req.bases)).0;
    forall i | 0 <= i < |PublicBases(req.bases)|
      ensures t.lines[i].name == PublicBases(req.bases)[i].actualName && t.lines[i].rtype == "extends"
    {
      SectionBasesIndex(sec, i);
    }
  }

  lemma SectionBasesIndex(sec: ScopeSections, i: nat)
    requires i < |sec.bases|
    ensures (SectionLines(sec) + [EndOfList])[i] == sec.bases[i]
  {
    assert SectionLines(sec) + [EndOfList] == sec.bases + (sec.routines + sec.fields + sec.specials + sec.additional + [EndOfList]);
  }

  /** Every section line is a real entry, the extends section is as `ExtendsLines` gives
      it, and the special section has one line per special name. */
  lemma ScopeSectionsEntries(env: Env, g: GenState, req: ScopeRequest)
    requires ScopeSectionsOf(env, g, req).Ok?
    ensures var sec := ScopeSectionsOf(env, g, req).value.0;
            var all := SectionLines(sec);
            && (forall i :: 0 <= i < |all| ==> all[i].Entry?)
            && |sec.specials| == |SpecialNames(req, HasConstructor(ListedRoutines(req.routines, req.isAbstract)))|
            && sec.bases == ExtendsLines(g, req.scope, PublicBases(req.bases)).0
  {
    var sec := ScopeSectionsOf(env, g, req).value.0;
    var listed := ListedRoutines(req.routines, req.isAbstract);
    var ext := ExtendsLines(g, req.scope, PublicBases(req.bases));
    var rl := RoutinesRegLines(env, ext.1, listed, 0, req.with).value;
    var fl := FieldsRegLines(env, rl.1, AvailableFields(req.fields), true).value;
    var sp := SpecialLines(fl.1, req, HasConstructor(listed));
    RoutinesRegLinesEntries(env, ext.1, listed, 0, req.with);
    FieldsRegLinesEntries(env, rl.1, AvailableFields(req.fields), true);
    RoutinesRegLinesEntries(env, sp.1, AvailableRoutines(req.additional), 1, false);
    assert AllEntries(sec.bases);
    assert AllEntries(sec.specials);
    AllEntriesAppend(sec.bases, sec.routines);
    AllEntriesAppend(sec.bases + sec.routines, sec.fields);
    AllEntriesAppend(sec.bases + sec.routines + sec.fields, sec.specials);
    AllEntriesAppend(sec.bases + sec.routines + sec.fields + sec.specials, sec.additional);
  }

  predicate AllEntries(lines: seq<RegLine>)
  {
    forall i :: 0 <= i < |lines| ==> lines[i].Entry?
  }

  lemma AllEntriesAppend(a: seq<RegLine>, b: seq<RegLine>)
    requires AllEntries(a) && AllEntries(b)
    ensures AllEntries(a + b)
  {
    assert forall i :: |a| <= i < |a + b| ==> (a + b)[i] == b[i - |a|];
  }

  /** The routine section is the routine lines written right after the extends lines, and
      the rest of the table only numbers further objects. */
  lemma ScopeSectionsRoutines(env: Env, g: GenState, req: ScopeRequest)
    requires ScopeSectionsOf(env, g, req).Ok?
    ensures var listed := ListedRoutines(req.routines, req.isAbstract);
            var ext := ExtendsLines(g, req.scope, PublicBases(req.bases));
            && |ScopeSectionsOf(env, g, req).value.0.bases| == |PublicBases(req.bases)|
            && ext.1.interceptorMethods == g.interceptorMethods
            && RoutinesRegLines(env, ext.1, listed, 0, req.with).Ok?
            && ScopeSectionsOf(env, g, req).value.0.routines == RoutinesRegLines(env, ext.1, listed, 0, req.with).value.0
            && Later(RoutinesRegLines(env, ext.1, listed, 0, req.with).value.1, ScopeSectionsOf(env, g, req).value.1)
  {
    var listed := ListedRoutines(req.routines, req.isAbstract);
    var ext := ExtendsLines(g, req.scope, PublicBases(req.bases));
    var rl := RoutinesRegLines(env, ext.1, listed, 0, req.with).value;
    var fl := FieldsRegLines(env, rl.1, AvailableFields(req.fields), true).value;
    var sp := SpecialLines(fl.1, req, HasConstructor(listed));
    var al := RoutinesRegLines(env, sp.1, AvailableRoutines(req.additional), 1, false).value;
    LaterTransitive(rl.1, fl.1, sp.1);
    LaterTransitive(rl.1, sp.1, al.1);
  }

  /** Listed routine `k` of a scope owns the table lines from
      `|public bases| + Widths(listed[..k])` on: its line for `minArgs + i` arguments sits
      at that offset plus `i` and refers to the prototype and wrapper for that count. */
  lemma ScopeRoutineLineAt(env: Env, g: GenState, req: ScopeRequest, k: nat, i: nat)
    requires ScopeTableOf(env, g, req).Ok?
    requires k < |ListedRoutines(req.routines, req.isAbstract)|
    requires i < Width(ListedRoutines(req.routines, req.isAbstract)[k])
    ensures RoutineLineAt(env, ScopeTableOf(env, g, req).value.0.lines, ScopeTableOf(env, g, req).value.1,
                          |PublicBases(req.bases)| + Widths(ListedRoutines(req.routines, req.isAbstract)[..k]) + i,
                          ListedRoutines(req.routines, req.isAbstract)[k], req.with, i, 0,
                          ListedRoutines(req.routines, req.isAbstract)[k].id in g.interceptorMethods)
  {
    SectionRoutineLineAt(env, g, req, k, i);
    TableKeepsLine(env, g, req, k, i);
  }

  /** A routine line of the sections is the same line of the finished table. */
  lemma TableKeepsLine(env: Env, g: GenState, req: ScopeRequest, k: nat, i: nat)
    requires ScopeTableOf(env, g, req).Ok?
    requires k < |ListedRoutines(req.routines, req.isAbstract)|
    requires RoutineLineAt(env, SectionLines(ScopeSectionsOf(env, g, req).value.0), ScopeSectionsOf(env, g, req).value.1,
                           |PublicBases(req.bases)| + Widths(ListedRoutines(req.routines, req.isAbstract)[..k]) + i,
                           ListedRoutines(req.routines, req.isAbstract)[k], req.with, i, 0,
                           ListedRoutines(req.routines, req.isAbstract)[k].id in g.interceptorMethods)
    ensures RoutineLineAt(env, ScopeTableOf(env, g, req).value.0.lines, ScopeTableOf(env, g, req).value.1,
                          |PublicBases(req.bases)| + Widths(ListedRoutines(req.routines, req.isAbstract)[..k]) + i,
                          ListedRoutines(req.routines, req.isAbstract)[k], req.with, i, 0,
                          ListedRoutines(req.routines, req.isAbstract)[k].id in g.interceptorMethods)
  {
    var listed := ListedRoutines(req.routines, req.isAbstract);
    var sec := ScopeSectionsOf(env, g, req).value;
    var t := ScopeTableOf(env, g, req).value;
    AppendKeepsLine(env, SectionLines(sec.0), [EndOfList], t.0.lines, sec.1, t.1,
                    |PublicBases(req.bases)| + Widths(listed[..k]) + i, listed[k], req.with, i, 0,
                    listed[k].id in g.interceptorMethods);
  }

  lemma AppendKeepsLine(env: Env, a: seq<RegLine>, b: seq<RegLine>, lines: seq<RegLine>, h: GenState, h': GenState,
                        at: nat, r: Routine, with: bool, i: nat, nSkip: nat, intercepted: bool)
    requires RoutineLineAt(env, a, h, at, r, with, i, nSkip, intercepted)
    requires lines == a + b && h' == h
    ensures RoutineLineAt(env, lines, h', at, r, with, i, nSkip, intercepted)
  {
  }

  /** The same, within the sections before the sentinel. */
  lemma SectionRoutineLineAt(env: Env, g: GenState, req: ScopeRequest, k: nat, i: nat)
    requires ScopeSectionsOf(env, g, req).Ok?
    requires k < |ListedRoutines(req.routines, req.isAbstract)|
    requires i < Width(ListedRoutines(req.routines, req.isAbstract)[k])
    ensures RoutineLineAt(env, SectionLines(ScopeSectionsOf(env, g, req).value.0), ScopeSectionsOf(env, g, req).value.1,
                          |PublicBases(req.bases)| + Widths(ListedRoutines(req.routines, req.isAbstract)[..k]) + i,
                          ListedRoutines(req.routines, req.isAbstract)[k], req.with, i, 0,
                          ListedRoutines(req.routines, req.isAbstract)[k].id in g.interceptorMethods)
  {
    var listed := ListedRoutines(req.routines, req.isAbstract);
    var ext := ExtendsLines(g, req.scope, PublicBases(req.bases));
    var res := ScopeSectionsOf(env, g, req).value;
    ScopeSectionsRoutines(env, g, req);
    var at := |res.0.bases| + Widths(listed[..k]) + i;
    assert at == |PublicBases(req.bases)| + Widths(listed[..k]) + i;
    RoutineSectionLineAt(env, ext.1, listed, req.with, k, i, res.0, res.1, at, listed[k].id in ext.1.interceptorMethods);
  }

  /** Line `i` of routine `k` of a routine section, found in the assembled sections. */
  lemma RoutineSectionLineAt(env: Env, g: GenState, rs: seq<Routine>, with: bool, k: nat, i: nat,
                             sec: ScopeSections, h: GenState, at: nat, intercepted: bool)
    requires RoutinesRegLines(env, g, rs, 0, with).Ok?
    requires sec.routines == RoutinesRegLines(env, g, rs, 0, with).value.0
    requires Later(RoutinesRegLines(env, g, rs, 0, with).value.1, h)
    requires k < |rs| && i < Width(rs[k])
    requires at == |sec.bases| + Widths(rs[..k]) + i && intercepted == (rs[k].id in g.interceptorMethods)
    ensures RoutineLineAt(env, SectionLines(sec), h, at, rs[k], with, i, 0, intercepted)
  {
    RoutinesRegLinesAt(env, g, rs, 0, with, k, i);
    var rl := RoutinesRegLines(env, g, rs, 0, with).value;
    SectionKeepsLine(env, rl.0, rl.1, sec, h, Widths(rs[..k]) + i, rs[k], with, i, rs[k].id in g.interceptorMethods);
  }

  /** A routine line keeps its meaning when its section is placed among the others and
      the table is finished in a later state. */
  lemma SectionKeepsLine(env: Env, lines: seq<RegLine>, h: GenState, sec: ScopeSections, h': GenState,
                         j: nat, r: Routine, with: bool, i: nat, intercepted: bool)
    requires RoutineLineAt(env, lines, h, j, r, with, i, 0, intercepted)
    requires Later(h, h') && sec.routines == lines
    ensures RoutineLineAt(env, SectionLines(sec), h', |sec.bases| + j, r, with, i, 0, intercepted)
  {
    SectionRoutineIndex(sec, j);
  }
}
