/** The interceptors of `CodeGenerator`: the classes that get one (`investInterceptor`,
    `autoInvestInterceptor`, `generateInterceptors`) and the subclass `createInterceptor`
    writes for each. An interceptor `I<name>` publicly derives from its subject, forwards
    the subject's constructors, keeps an opaque back-reference (`twin`) set by `_init` and
    read by `_py`, overrides every accessible virtual method once per argument count and
    re-exposes the protected fields through public accessors. Each override hands its
    arguments to `__robin_callback` together with an index into the interceptor's own
    scope table; the last section shows that the index is the position of the override's
    registration line in that table. */
module Interceptors {
  import opened Support
  import opened Model
  import opened Identity
  import opened Names
  import opened State
  import opened Wrappers
  import opened Registration
  import opened TypeRules

  // ---------------------------------------------------------------------------
  // investInterceptor / autoInvestInterceptor

  /** A class passes when the collaborator does not answer "no" (a question it cannot
      answer lets the class through) and it is not a template wrapped separately. */
  predicate Admitted(a: Aggregate, check: Option<bool>, separateTemplates: bool)
  {
    check != Some(false) && !(a.templated && separateTemplates)
  }

  /** `investInterceptor(classname)`: the classes it appends to the interceptor list, in
      subject order. */
  function InvestInterceptor(subjects: seq<Aggregate>, classname: string, separateTemplates: bool): seq<Aggregate>
  {
    if |subjects| == 0 then []
    else
      var a := subjects[0];
      (if a.name == classname && Admitted(a, a.traits.abstractCheck, separateTemplates) then [a] else [])
      + InvestInterceptor(subjects[1..], classname, separateTemplates)
  }

  /** Exactly the subjects of that name that are abstract, or whose abstractness cannot
      be decided, are listed (templates excepted when they are wrapped separately). */
  lemma {:induction false} InvestInterceptorMembers(subjects: seq<Aggregate>, classname: string, separateTemplates: bool)
    ensures forall a :: a in InvestInterceptor(subjects, classname, separateTemplates) <==>
              && a in subjects && a.name == classname
              && a.traits.abstractCheck != Some(false)
              && !(a.templated && separateTemplates)
  {
    if |subjects| > 0 {
      InvestInterceptorMembers(subjects[1..], classname, separateTemplates);
      assert forall a :: a in subjects <==> a == subjects[0] || a in subjects[1..];
    }
  }

  /** `autoInvestInterceptor()`: the classes it appends to the interceptor list. */
  function AutoInvestInterceptor(subjects: seq<Aggregate>, separateTemplates: bool): seq<Aggregate>
  {
    if |subjects| == 0 then []
    else
      var a := subjects[0];
      (if Admitted(a, a.traits.polymorphicCheck, separateTemplates) then [a] else [])
      + AutoInvestInterceptor(subjects[1..], separateTemplates)
  }

  /** Exactly the polymorphic subjects, and those whose polymorphism cannot be decided,
      are listed (templates excepted when they are wrapped separately). */
  lemma {:induction false} AutoInvestInterceptorMembers(subjects: seq<Aggregate>, separateTemplates: bool)
    ensures forall a :: a in AutoInvestInterceptor(subjects, separateTemplates) <==>
              && a in subjects
              && a.traits.polymorphicCheck != Some(false)
              && !(a.templated && separateTemplates)
  {
    if |subjects| > 0 {
      AutoInvestInterceptorMembers(subjects[1..], separateTemplates);
      assert forall a :: a in subjects <==> a == subjects[0] || a in subjects[1..];
    }
  }

  // ---------------------------------------------------------------------------
  // The members of an interceptor class

  function InterceptorName(s: Aggregate): string { "I" + s.name }

  /** The constructors that are forwarded: all but the private ones. */
  predicate Forwarded(r: Routine) { r.IsConstructor() && r.vis != Private }

  function ForwardedCtors(rs: seq<Routine>): seq<Routine>
  {
    if |rs| == 0 then []
    else (if Forwarded(rs[0]) then [rs[0]] else []) + ForwardedCtors(rs[1..])
  }

  lemma {:induction false} ForwardedCtorsMembers(rs: seq<Routine>)
    ensures forall r :: r in ForwardedCtors(rs) <==> r in rs && Forwarded(r)
  {
    if |rs| > 0 {
      ForwardedCtorsMembers(rs[1..]);
      assert forall r :: r in rs <==> r == rs[0] || r in rs[1..];
    }
  }

  /** The virtual methods that are overridden: all but the private ones. */
  function Overridden(rs: seq<Routine>): seq<Routine>
  {
    if |rs| == 0 then []
    else (if rs[0].vis != Private then [rs[0]] else []) + Overridden(rs[1..])
  }

  lemma {:induction false} OverriddenMembers(rs: seq<Routine>)
    ensures forall r :: r in Overridden(rs) <==> r in rs && r.vis != Private
  {
    if |rs| > 0 {
      OverriddenMembers(rs[1..]);
      assert forall r :: r in rs <==> r == rs[0] || r in rs[1..];
    }
  }

  /** The compiler-made default constructor is forwarded when the class has one and no
      constructor was forwarded. */
  predicate AddsDefaultCtor(s: Aggregate)
  {
    s.traits.mustHaveCtor && |ForwardedCtors(s.routines)| == 0
  }

  /** A routine the generator creates in the interceptor's scope: public, non-virtual,
      without default arguments. */
  function Synthesized(s: Aggregate, tag: Tag, name: string, params: seq<Parameter>, ret: Option<Type>, kind: RoutineKind): Routine
  {
    var iname := InterceptorName(s);
    Routine(Made(tag, s.id), name, iname + "::" + name, iname + "::" + name, InAggregate(iname), params, ret, kind,
            false, false, |params|, |params|, true, Public, NonVirtual, None)
  }

  /** `_init(scripting_element imp)`, which sets the back-reference. */
  function InitMember(s: Aggregate): Routine
  {
    Synthesized(s, InitRoutine, "_init", [Parameter("imp", Plain(SCRIPTING_ELEMENT), false)], Some(Plain(VOID)), PlainRoutine)
  }

  /** `_py()`, which returns the back-reference. */
  function PyMember(s: Aggregate): Routine
  {
    Synthesized(s, PyRoutine, "_py", [], Some(Plain(SCRIPTING_ELEMENT)), PlainRoutine)
  }

  /** The forwarder of the compiler-made default constructor: a routine without a return
      type, named after the interceptor. */
  function DefaultCtorMember(s: Aggregate): Routine
  {
    Synthesized(s, DefaultCtor, InterceptorName(s), [], None, Constructor(false))
  }

  /** A clone of a subject routine added to the interceptor's scope as a public member. */
  function Adopt(s: Aggregate, r: Routine, tag: Tag, name: string, virt: Virtuality): (c: Routine)
    ensures c.minArgs == r.minArgs && c.maxArgs == r.maxArgs && c.kind == r.kind && c.available == r.available
    ensures c.vis == Public && c.id == Made(tag, s.id)
  {
    var iname := InterceptorName(s);
    r.(id := Made(tag, s.id), name := name, fullName := iname + "::" + name, cleanName := iname + "::" + name,
       container := InAggregate(iname), vis := Public, virt := virt)
  }

  function ForwardingMember(s: Aggregate, c: Routine): Routine
  {
    Adopt(s, c, CtorClone(c.id), InterceptorName(s), NonVirtual)
  }

  function OverrideMember(s: Aggregate, r: Routine): Routine
  {
    Adopt(s, r, OverrideClone(r.id), r.name, Virtual)
  }

  function ForwardingMembers(s: Aggregate, cs: seq<Routine>): (ms: seq<Routine>)
    ensures |ms| == |cs|
  {
    seq(|cs|, k requires 0 <= k < |cs| => ForwardingMember(s, cs[k]))
  }

  function OverrideMembers(s: Aggregate, vs: seq<Routine>): (ms: seq<Routine>)
    ensures |ms| == |vs|
  {
    seq(|vs|, k requires 0 <= k < |vs| => OverrideMember(s, vs[k]))
  }

  /** The routines added to the interceptor's scope before the overrides, in the order
      `createInterceptor` adds them. */
  function LeadingMembers(s: Aggregate): seq<Routine>
  {
    [InitMember(s), PyMember(s)] + ForwardingMembers(s, ForwardedCtors(s.routines))
    + (if AddsDefaultCtor(s) then [DefaultCtorMember(s)] else [])
  }

  /** Every routine of the interceptor's scope, in order. */
  function InterceptorRoutines(s: Aggregate): seq<Routine>
  {
    LeadingMembers(s) + OverrideMembers(s, Overridden(s.virtuals))
  }

  /** The routines the interceptors implement in the front end. */
  function OverrideIds(s: Aggregate): set<ObjId>
  {
    set r | r in Overridden(s.virtuals) :: OverrideMember(s, r).id
  }

  // ---------------------------------------------------------------------------
  // writeInterceptorFunctionThrowsClause and the destructor

  /** The destructor `createInterceptor` finds: the last one among the class's routines. */
  function LastDestructor(rs: seq<Routine>): Option<Routine>
    decreases |rs|
  {
    if |rs| == 0 then None
    else if rs[|rs| - 1].IsDestructor() then Some(rs[|rs| - 1])
    else LastDestructor(rs[..|rs| - 1])
  }

  /** There is a destructor exactly when one is declared, and the one found is declared
      after every other. */
  lemma {:induction false} LastDestructorIsLast(rs: seq<Routine>)
    ensures LastDestructor(rs).None? <==> forall i :: 0 <= i < |rs| ==> !rs[i].IsDestructor()
    ensures LastDestructor(rs).Some? ==>
              exists k :: 0 <= k < |rs| && rs[k] == LastDestructor(rs).value && rs[k].IsDestructor()
                          && forall j :: k < j < |rs| ==> !rs[j].IsDestructor()
    decreases |rs|
  {
    if |rs| > 0 {
      var n := |rs| - 1;
      if rs[n].IsDestructor() {
        assert rs[n] == LastDestructor(rs).value;
      } else {
        LastDestructorIsLast(rs[..n]);
        assert forall i :: 0 <= i < n ==> rs[..n][i] == rs[i];
        if LastDestructor(rs[..n]).Some? {
          var k :| 0 <= k < n && rs[..n][k] == LastDestructor(rs[..n]).value && rs[..n][k].IsDestructor()
                   && forall j :: k < j < n ==> !rs[..n][j].IsDestructor();
          assert rs[k] == LastDestructor(rs).value;
        }
      }
    }
  }

  /** ` throw(A, B)` for a routine with a throw clause, naming the thrown classes in
      order; nothing for a routine without one, or for no routine at all. */
  function ThrowsClause(r: Option<Routine>): (t: string)
    ensures t == "" <==> !(r.Some? && r.value.throwsClause.Some?)
    ensures t != "" ==> |t| >= 8 && t[..7] == " throw(" && t[|t| - 1] == ')'
  {
    if r.Some? && r.value.throwsClause.Some? then " throw(" + Join(r.value.throwsClause.value, ", ") + ")" else ""
  }

  // ---------------------------------------------------------------------------
  // addInterceptorBaseConstructor

  /** One forwarding constructor `I<name>(<parameters>) : <Subject>(<arguments>) {}` for
      `nArgs` arguments: the declared parameters and the names passed on. */
  datatype CtorForward = CtorForward(nArgs: nat, params: seq<string>, baseArgs: seq<string>)

  function CtorForwardFor(env: Env, params: seq<Parameter>, nArgs: nat): (f: CtorForward)
    ensures f.nArgs == nArgs && |f.params| == |f.baseArgs| == Min(nArgs, |params|)
  {
    var m := Min(nArgs, |params|);
    CtorForward(nArgs,
                seq(m, i requires 0 <= i < m => env.declare(params[i].ptype, params[i].name)),
                seq(m, i requires 0 <= i < m => params[i].name))
  }

  /** Each argument passed to the subject's constructor is the name its parameter is
      declared under, in the same position. */
  lemma ForwardPassesDeclaredNames(env: Env, params: seq<Parameter>, nArgs: nat, i: nat)
    requires i < Min(nArgs, |params|)
    ensures CtorForwardFor(env, params, nArgs).params[i]
            == env.declare(params[i].ptype, CtorForwardFor(env, params, nArgs).baseArgs[i])
  {
  }

  /** The forwarders of one constructor, one per argument count `minArgs..maxArgs`. */
  function CtorForwards(env: Env, c: Routine): (fs: seq<CtorForward>)
    ensures |fs| == Width(c)
    ensures forall i :: 0 <= i < |fs| ==> fs[i].nArgs == c.minArgs + i
  {
    var fs := seq(Width(c), i requires 0 <= i < Width(c) => CtorForwardFor(env, c.params, c.minArgs + i));
    assert forall i :: 0 <= i < |fs| ==> fs[i] == CtorForwardFor(env, c.params, c.minArgs + i);
    fs
  }

  function AllCtorForwards(env: Env, cs: seq<Routine>): seq<CtorForward>
  {
    if |cs| == 0 then [] else CtorForwards(env, cs[0]) + AllCtorForwards(env, cs[1..])
  }

  // ---------------------------------------------------------------------------
  // writeInterceptorFunction*

  /** A parameter of an override's header: the parameter's type declaring the generic
      name, and the original name (written as a comment). */
  datatype HeaderParam = HeaderParam(declaration: string, original: string)

  /** `virtual <ret> <name>(<params>) [const][ throw(...)] {` */
  datatype Header = Header(returnType: string, name: string, params: seq<HeaderParam>, isConst: bool, throws: string)

  /** One element of the argument array: a cast of `interceptor_arg<i>` (or of its
      address) to a basic block, through `SameClass<T>::same` or through `touchup`. */
  datatype ArgConversion = ArgConversion(argType: string, touchup: Option<string>, byAddress: bool, arg: string)

  /** The call to the original implementation, made when the callback declines. */
  datatype Fallback = Fallback(returnsValue: bool, callee: string, args: seq<string>)

  /** `__robin_callback(twin, <table> + <index>, args, &result, <pure>)`. */
  datatype Callback = Callback(table: string, index: int, pure: bool, fallback: Option<Fallback>)

  /** `return` of the callback's result, converted back through `SameClass` or
      `touchdown`, and dereferenced from an `auto_ptr` when the value is boxed. */
  datatype ReturnStatement = ReturnStatement(declared: string, effective: string, touchdown: Option<string>, boxed: bool)

  /** The override for `nArgs` arguments. */
  datatype OverrideOverload = OverrideOverload(
    nArgs: nat,
    header: Header,
    args: Option<seq<ArgConversion>>,
    call: Callback,
    ret: Option<ReturnStatement>)

  /** All overloads of one overridden method, starting at counter value `counter`. */
  datatype Override = Override(member: Routine, counter: int, overloads: seq<OverrideOverload>)

  /** The return type compares equal to a bare `void`. */
  predicate IsVoid(t: Option<Type>) { t == Some(Plain(VOID)) }

  /** What an override needs of its routine: a return type to declare, and a class to fall
      back to unless the method is pure virtual. */
  predicate Writable(r: Routine)
  {
    r.returnType.Some? && (r.virt == PureVirtual || !r.container.NoContainer?)
  }

  function ArgNames(m: nat): (ns: seq<string>)
    ensures |ns| == m
  {
    seq(m, i requires 0 <= i < m => ArgName(i))
  }

  /** `writeInterceptorFunctionHeader(routine, nArgs)`. */
  function HeaderOf(env: Env, r: Routine, nArgs: nat): (h: Header)
    requires r.returnType.Some?
    ensures |h.params| == Min(nArgs, |r.params|)
  {
    var m := Min(nArgs, |r.params|);
    Header(env.spell(r.returnType.value), r.name,
           seq(m, i requires 0 <= i < m => HeaderParam(env.declare(r.params[i].ptype, ArgName(i)), r.params[i].name)),
           r.isConst, ThrowsClause(Some(r)))
  }

  /** `writeInterceptorFunctionBasicBlockArgument(param, i, …)`: the touchup of the
      parameter's shallow original type, if any, converts the argument; otherwise the
      argument is passed as it is, or by address when it needs extra referencing. */
  function ArgumentConversion(env: Env, p: Parameter, i: nat): ArgConversion
  {
    var touch := env.touchup(env.originalTypeShallow(p.ptype));
    ArgConversion(env.spell(p.ptype), if touch.Some? then Some(env.spell(touch.value)) else None,
                  env.needsExtraReferencing(p.ptype) && touch.None?, ArgName(i))
  }

  /** `writeInterceptorFunctionBasicBlockArgumentArray(routine, nArgs)`: `None` is
      `basic_block *args = NULL`, written instead of an empty array. */
  function ArgumentArray(env: Env, params: seq<Parameter>, nArgs: nat): (a: Option<seq<ArgConversion>>)
    ensures a.None? <==> nArgs == 0
    ensures a.Some? ==> |a.value| == Min(nArgs, |params|)
  {
    if nArgs == 0 then None
    else
      var m := Min(nArgs, |params|);
      Some(seq(m, i requires 0 <= i < m => ArgumentConversion(env, params[i], i)))
  }

  /** `writeInterceptorFunctionCallbackCall`: a pure virtual method only calls the
      callback; any other method falls back to its original implementation, returning its
      value unless it returns `void`. */
  function CallbackCall(r: Routine, table: string, index: int, nArgs: nat): (c: Callback)
    requires Writable(r)
    ensures c.table == table && c.index == index
    ensures c.pure <==> r.virt == PureVirtual
    ensures c.fallback.None? <==> c.pure
    ensures c.fallback.Some? ==> (c.fallback.value.returnsValue <==> !IsVoid(r.returnType))
  {
    if r.virt == PureVirtual then Callback(table, index, true, None)
    else Callback(table, index, false,
                  Some(Fallback(!IsVoid(r.returnType), r.container.fullName + "::" + r.name,
                                ArgNames(Min(nArgs, |r.params|)))))
  }

  /** `writeInterceptorFunctionReturnStatement`: none for `void`; otherwise the value
      travels in the touchup type of the declared type when there is one. */
  function ReturnStatementOf(env: Env, r: Routine): (s: Option<ReturnStatement>)
    requires r.returnType.Some?
    ensures s.None? <==> IsVoid(r.returnType)
  {
    if IsVoid(r.returnType) then None
    else
      var t := r.returnType.value;
      var touch := env.touchup(t);
      var effective := if touch.Some? then touch.value else t;
      Some(ReturnStatement(env.spell(t), env.spell(effective), if touch.Some? then Some(env.spell(touch.value)) else None,
                           env.needsExtraReferencing(effective)))
  }

  /** With the constructor's touchup table in place, argument `i` of the array goes through
      `touchup` exactly when its shallow original type is one of the four wide primitives,
      and then to the boxed type the table names; it is passed by address exactly when it
      needs extra referencing and is not touched up. */
  lemma ArgumentTouchup(env: Env, params: seq<Parameter>, nArgs: nat, i: nat)
    requires ConsultsTable(env, InitialTouchups())
    requires nArgs > 0 && i < Min(nArgs, |params|)
    ensures var a := ArgumentArray(env, params, nArgs).value[i];
            var orig := env.originalTypeShallow(params[i].ptype);
            && a.arg == ArgName(i) && a.argType == env.spell(params[i].ptype)
            && (a.touchup.Some? <==> orig in InitialTouchups())
            && (orig in InitialTouchups() ==> a.touchup == Some(env.spell(InitialTouchups()[orig])) && !a.byAddress)
            && (a.byAddress <==> env.needsExtraReferencing(params[i].ptype) && orig !in InitialTouchups())
  {
    assert ArgumentArray(env, params, nArgs).value[i] == ArgumentConversion(env, params[i], i);
    var orig := env.originalTypeShallow(params[i].ptype);
    assert env.touchup(orig) == (if orig in InitialTouchups() then Some(InitialTouchups()[orig]) else None);
  }

  /** With the constructor's touchup table in place, a non-void result goes through
      `touchdown` exactly when the declared return type is one of the four wide
      primitives; the value is then handled as the boxed type, and it is unboxed through
      `std::auto_ptr` exactly when that effective type needs extra referencing. */
  lemma ReturnTouchdown(env: Env, r: Routine)
    requires ConsultsTable(env, InitialTouchups())
    requires r.returnType.Some? && !IsVoid(r.returnType)
    ensures var t := r.returnType.value;
            var effective := if t in InitialTouchups() then InitialTouchups()[t] else t;
            var st := ReturnStatementOf(env, r).value;
            && st.declared == env.spell(t)
            && (st.touchdown.Some? <==> t in InitialTouchups())
            && st.effective == env.spell(effective)
            && (st.boxed <==> env.needsExtraReferencing(effective))
  {
    var t := r.returnType.value;
    assert env.touchup(t) == (if t in InitialTouchups() then Some(InitialTouchups()[t]) else None);
  }

  /** The override for `nArgs` arguments, calling the callback with index `index`. */
  function OverrideOverloadFor(env: Env, r: Routine, table: string, index: int, nArgs: nat): (o: OverrideOverload)
    requires Writable(r)
    ensures o.nArgs == nArgs && o.call.index == index && o.call.table == table
  {
    OverrideOverload(nArgs, HeaderOf(env, r, nArgs), ArgumentArray(env, r.params, nArgs),
                     CallbackCall(r, table, index, nArgs), ReturnStatementOf(env, r))
  }

  /** The header, the argument array and the fallback call all name the arguments
      `interceptor_arg0 … interceptor_arg<m-1>` for the same `m` parameters, in order; the
      override returns a value exactly when its method does not return `void`. */
  lemma OverloadArgumentsAgree(env: Env, r: Routine, table: string, index: int, nArgs: nat)
    requires Writable(r)
    ensures var o := OverrideOverloadFor(env, r, table, index, nArgs);
            var m := Min(nArgs, |r.params|);
            && |o.header.params| == m
            && (forall i :: 0 <= i < m ==>
                  o.header.params[i] == HeaderParam(env.declare(r.params[i].ptype, ArgName(i)), r.params[i].name))
            && (o.args.Some? ==> |o.args.value| == m && forall i :: 0 <= i < m ==> o.args.value[i].arg == ArgName(i))
            && (o.args.None? ==> m == 0)
            && (o.call.fallback.Some? ==> o.call.fallback.value.args == ArgNames(m))
            && (o.ret.Some? <==> !IsVoid(r.returnType))
  {
  }

  /** `writeInterceptorFunction` for one method: the overloads for `minArgs..maxArgs`
      arguments use consecutive indices from `counter`. A method with at least one
      overload and no return type, or with nothing to fall back to, cannot be written. */
  function OverrideFor(env: Env, s: Aggregate, r: Routine, table: string, counter: int): (res: Result<Override>)
    ensures res.Ok? <==> Width(r) == 0 || Writable(r)
    ensures res.Ok? ==> res.value.member == OverrideMember(s, r) && res.value.counter == counter
                        && |res.value.overloads| == Width(r)
  {
    if Width(r) == 0 then Ok(Override(OverrideMember(s, r), counter, []))
    else if r.returnType.None? then Err(NullReference("return type of " + r.fullName))
    else if !Writable(r) then Err(NullReference("container of " + r.fullName))
    else Ok(Override(OverrideMember(s, r), counter,
                     seq(Width(r), i requires 0 <= i < Width(r) => OverrideOverloadFor(env, r, table, counter + i, r.minArgs + i))))
  }

  /** The overload of a method for `minArgs + i` arguments calls the callback with index
      `counter + i`. */
  lemma OverloadIndex(env: Env, s: Aggregate, r: Routine, table: string, counter: int, i: nat)
    requires OverrideFor(env, s, r, table, counter).Ok? && i < Width(r)
    ensures var o := OverrideFor(env, s, r, table, counter).value.overloads[i];
            o.nArgs == r.minArgs + i && o.call.index == counter + i && o.call.table == table
  {
    assert Writable(r);
    assert OverrideFor(env, s, r, table, counter).value.overloads[i]
           == OverrideOverloadFor(env, r, table, counter + i, r.minArgs + i);
  }

  /** The slots the counter reserves for a routine: `countParameters -
      minimalArgumentCount + 1`, as `createInterceptor` computes it. */
  function Slots(r: Routine): int { r.maxArgs - r.minArgs + 1 }

  function SlotsOf(rs: seq<Routine>): int
  {
    if |rs| == 0 then 0 else Slots(rs[0]) + SlotsOf(rs[1..])
  }

  /** The overrides of the methods `vs`, the counter advancing by each method's slots. */
  function Overrides(env: Env, s: Aggregate, vs: seq<Routine>, table: string, counter: int): (res: Result<seq<Override>>)
    ensures res.Ok? ==> |res.value| == |vs|
    decreases |vs|
  {
    if |vs| == 0 then Ok([])
    else
      var o :- OverrideFor(env, s, vs[0], table, counter);
      var rest :- Overrides(env, s, vs[1..], table, counter + Slots(vs[0]));
      Ok([o] + rest)
  }

  /** Override `k` is the override of method `k`, and it starts where the slots of the
      methods before it end. */
  lemma {:induction false} OverridesAt(env: Env, s: Aggregate, vs: seq<Routine>, table: string, counter: int, k: nat)
    requires Overrides(env, s, vs, table, counter).Ok? && k < |vs|
    ensures OverrideFor(env, s, vs[k], table, counter + SlotsOf(vs[..k])).Ok?
    ensures Overrides(env, s, vs, table, counter).value[k]
            == OverrideFor(env, s, vs[k], table, counter + SlotsOf(vs[..k])).value
    decreases k
  {
    if k == 0 {
      assert vs[..0] == [];
    } else {
      OverridesAt(env, s, vs[1..], table, counter + Slots(vs[0]), k - 1);
      assert vs[..k][1..] == vs[1..][..k - 1];
    }
  }

  // ---------------------------------------------------------------------------
  // writeInterceptorFieldWrapper

  /** A re-exposed field: the key of its typedef (the field's number), the typedef when
      this is the first field with that key, the public clone and its accessors. */
  datatype FieldExposure = FieldExposure(key: string, typedef: Option<string>, member: Field, accessors: FieldWrapper)

  /** The typedef `intercepted_<key>` through which a re-exposed field is typed. */
  function InterceptedAlias(s: Aggregate, f: Field, u: nat): Base
  {
    AliasBase(Made(FieldTypedef(f.id), s.id), InterceptedTypeName(u), f.ftype)
  }

  /** The clone of a field: public, wrapped, typed through its typedef. */
  function FieldMember(s: Aggregate, f: Field, u: nat): Field
  {
    var iname := InterceptorName(s);
    f.(id := Made(FieldClone(f.id), s.id), ftype := Plain(InterceptedAlias(s, f, u)), wrapped := true, vis := Public,
       container := InAggregate(iname), fullName := iname + "::" + f.name, cleanName := iname + "::" + f.name)
  }

  /** `writeInterceptorFieldWrapper(…, f, …, newTypes)`: arrays are not re-exposed; any
      other field is numbered, gets its typedef unless one with its key was already
      written, and its clone gets interceptor-side accessors. */
  function ExposeField(env: Env, g: GenState, s: Aggregate, f: Field, seen: set<string>)
    : (res: Result<(Option<FieldExposure>, set<string>, GenState)>)
    ensures res.Ok? ==> Later(g, res.value.2) && res.value.2.interceptorMethods == g.interceptorMethods
    ensures res.Ok? ==> (res.value.0.None? <==> env.isArrayType(f.ftype))
  {
    if env.isArrayType(f.ftype) then
      LaterReflexive(g);
      Ok((None, seen, g))
    else
      var (u, g1) := Number(g, f.id);
      var key := NatToString(u);
      var typedef := if key in seen then None
                     else Some(env.declare(RemoveUnneededConstness(f.ftype), InterceptedTypeName(u)));
      var acc :- FieldAccessors(env, g1, FieldMember(s, f, u), true, true);
      LaterTransitive(g, g1, acc.1);
      Ok((Some(FieldExposure(key, typedef, FieldMember(s, f, u), acc.0)), seen + {key}, acc.1))
  }

  /** The fields `fs`, in order. */
  function ExposeFields(env: Env, g: GenState, s: Aggregate, fs: seq<Field>, seen: set<string>)
    : (res: Result<(seq<FieldExposure>, GenState)>)
    ensures res.Ok? ==> Later(g, res.value.1) && res.value.1.interceptorMethods == g.interceptorMethods
    decreases |fs|
  {
    if |fs| == 0 then
      LaterReflexive(g);
      Ok(([], g))
    else
      var first :- ExposeField(env, g, s, fs[0], seen);
      var rest :- ExposeFields(env, first.2, s, fs[1..], first.1);
      LaterTransitive(g, first.2, rest.1);
      Ok(((if first.0.Some? then [first.0.value] else []) + rest.0, rest.1))
  }

  /** One exposure: the typedef is written exactly when its key is new, and the key is
      then recorded; the typedef declares the field's type with the primitive
      qualifiers removed; the clone's accessors are those of an interceptor member. */
  lemma ExposeFieldShape(env: Env, g: GenState, s: Aggregate, f: Field, seen: set<string>)
    requires ExposeField(env, g, s, f, seen).Ok?
    ensures var (e, seen', h) := ExposeField(env, g, s, f, seen).value;
            && seen <= seen'
            && (e.Some? ==>
                  && f.id in h.uids.ids && e.value.key == NatToString(h.uids.ids[f.id])
                  && e.value.key in seen'
                  && (e.value.typedef.Some? <==> e.value.key !in seen)
                  && (e.value.typedef.Some? ==>
                        e.value.typedef.value == env.declare(RemoveUnneededConstness(f.ftype), "intercepted_" + e.value.key))
                  && e.value.member.wrapped && e.value.member.vis == Public
                  && e.value.member.ftype == Plain(AliasBase(Made(FieldTypedef(f.id), s.id), "intercepted_" + e.value.key, f.ftype)))
  {
    if !env.isArrayType(f.ftype) {
      var (u, g1) := Number(g, f.id);
      var acc := FieldAccessors(env, g1, FieldMember(s, f, u), true, true).value;
      assert acc.1.uids.ids[f.id] == u;
    }
  }

  /** No written typedef reuses a key of `seen`, and no two written typedefs share a key. */
  ghost predicate FreshTypedefs(es: seq<FieldExposure>, seen: set<string>)
  {
    && (forall i :: 0 <= i < |es| && es[i].typedef.Some? ==> es[i].key !in seen)
    && (forall i, j :: 0 <= i < j < |es| && es[i].typedef.Some? && es[j].typedef.Some? ==> es[i].key != es[j].key)
  }

  lemma FreshTypedefsCons(e: FieldExposure, es: seq<FieldExposure>, seen: set<string>, seen': set<string>)
    requires FreshTypedefs(es, seen') && seen <= seen' && e.key in seen'
    requires e.typedef.Some? ==> e.key !in seen
    ensures FreshTypedefs([e] + es, seen)
  {
    var all := [e] + es;
    assert forall i :: 0 < i < |all| ==> all[i] == es[i - 1];
  }

  lemma FreshTypedefsWeaken(es: seq<FieldExposure>, seen: set<string>, seen': set<string>)
    requires FreshTypedefs(es, seen') && seen <= seen'
    ensures FreshTypedefs(es, seen)
  {
  }

  /** A non-empty list exposes its first field, then the rest from what the first left. */
  lemma ExposeFieldsUnfold(env: Env, g: GenState, s: Aggregate, fs: seq<Field>, seen: set<string>)
    requires |fs| > 0 && ExposeFields(env, g, s, fs, seen).Ok?
    ensures ExposeField(env, g, s, fs[0], seen).Ok?
    ensures var first := ExposeField(env, g, s, fs[0], seen).value;
            && ExposeFields(env, first.2, s, fs[1..], first.1).Ok?
            && ExposeFields(env, g, s, fs, seen).value.0
               == (if first.0.Some? then [first.0.value] else []) + ExposeFields(env, first.2, s, fs[1..], first.1).value.0
  {
  }

  /** No two typedefs written for the fields of one interceptor have the same name, and
      none reuses a key already recorded. */
  lemma {:induction false} ExposedTypedefsDistinct(env: Env, g: GenState, s: Aggregate, fs: seq<Field>, seen: set<string>)
    requires ExposeFields(env, g, s, fs, seen).Ok?
    ensures FreshTypedefs(ExposeFields(env, g, s, fs, seen).value.0, seen)
    decreases |fs|
  {
    if |fs| > 0 {
      ExposeFieldsUnfold(env, g, s, fs, seen);
      var first := ExposeField(env, g, s, fs[0], seen).value;
      ExposeFieldShape(env, g, s, fs[0], seen);
      ExposedTypedefsDistinct(env, first.2, s, fs[1..], first.1);
      var rest := ExposeFields(env, first.2, s, fs[1..], first.1).value.0;
      if first.0.Some? {
        FreshTypedefsCons(first.0.value, rest, seen, first.1);
      } else {
        FreshTypedefsWeaken(rest, seen, first.1);
      }
    }
  }

  /** The accessors of a re-exposed field are those `generateFlatWrapper(field, true,
      true)` writes for its clone: they access the member directly and write no setter
      prototype. */
  lemma ExposedAccessors(env: Env, g: GenState, s: Aggregate, f: Field, seen: set<string>)
    requires ExposeField(env, g, s, f, seen).Ok? && ExposeField(env, g, s, f, seen).value.0.Some?
    ensures var e := ExposeField(env, g, s, f, seen).value.0.value;
            && e.member.id in ExposeField(env, g, s, f, seen).value.2.uids.ids
            && e.accessors.getter == GetterName(ExposeField(env, g, s, f, seen).value.2.uids.ids[e.member.id], true)
            && e.accessors.sink.None?
            && (e.accessors.setter.Some? <==> f.hasSetter)
  {
  }

  // ---------------------------------------------------------------------------
  // createInterceptor

  /** The class `createInterceptor` writes. `table` is the scope table the overrides
      index (declared `extern`), `baseName` the subject's full name, `dtorThrows` the
      throw clause of the virtual destructor. */
  datatype Interceptor = Interceptor(
    subject: ObjId,
    id: ObjId,
    scope: ObjId,
    name: string,
    table: string,
    baseName: string,
    dtorThrows: string,
    routines: seq<Routine>,
    ctors: seq<CtorForward>,
    overrides: seq<Override>,
    fields: seq<FieldExposure>)

  /** The counter value after the base link, `_init`, `_py` and the constructors. */
  function CounterAfterCtors(s: Aggregate): int
  {
    3 + SlotsOf(ForwardedCtors(s.routines)) + (if AddsDefaultCtor(s) then 1 else 0)
  }

  /** `createInterceptor(subject)`; `scopeTag` is the hash of the interceptor's own new scope,
      whose table the callbacks index. */
  function CreateInterceptor(env: Env, g: GenState, s: Aggregate, scopeTag: string): (res: Result<(Interceptor, GenState)>)
    ensures res.Ok? ==> Later(g, res.value.1)
    ensures res.Ok? ==> res.value.1.interceptorMethods == g.interceptorMethods + OverrideIds(s)
    ensures res.Ok? ==> |res.value.0.overrides| == |Overridden(s.virtuals)|
  {
    var table := ScopeTableName(scopeTag);
    var overrides :- Overrides(env, s, Overridden(s.virtuals), table, CounterAfterCtors(s));
    var g1 := g.(interceptorMethods := g.interceptorMethods + OverrideIds(s));
    var fields :- ExposeFields(env, g1, s, s.accessibleFields, {});
    LaterTransitive(g, g1, fields.1);
    var ctors := AllCtorForwards(env, ForwardedCtors(s.routines))
                 + (if AddsDefaultCtor(s) then CtorForwards(env, DefaultCtorMember(s)) else []);
    Ok((Interceptor(s.id, Made(InterceptorClass, s.id), Made(InterceptorScope, s.id), InterceptorName(s), table,
                    s.fullName, ThrowsClause(LastDestructor(s.routines)), InterceptorRoutines(s), ctors,
                    overrides, fields.0), fields.1))
  }

  /** The overrides of an interceptor are those of the non-private virtual methods,
      counted from `CounterAfterCtors`. */
  lemma CreateInterceptorOverrides(env: Env, g: GenState, s: Aggregate, scopeTag: string)
    requires CreateInterceptor(env, g, s, scopeTag).Ok?
    ensures Overrides(env, s, Overridden(s.virtuals), ScopeTableName(scopeTag), CounterAfterCtors(s)).Ok?
    ensures CreateInterceptor(env, g, s, scopeTag).value.0.overrides
            == Overrides(env, s, Overridden(s.virtuals), ScopeTableName(scopeTag), CounterAfterCtors(s)).value
  {
  }

  /** Override `k` overrides the `k`-th non-private virtual method; its overload for
      `minArgs + i` arguments uses index `CounterAfterCtors + slots of the earlier
      methods + i` into the table. */
  lemma OverrideCounter(env: Env, s: Aggregate, table: string, k: nat, i: nat)
    requires Overrides(env, s, Overridden(s.virtuals), table, CounterAfterCtors(s)).Ok?
    requires k < |Overridden(s.virtuals)| && i < Width(Overridden(s.virtuals)[k])
    ensures var o := Overrides(env, s, Overridden(s.virtuals), table, CounterAfterCtors(s)).value[k];
            && o.member == OverrideMember(s, Overridden(s.virtuals)[k])
            && i < |o.overloads|
            && o.overloads[i].nArgs == Overridden(s.virtuals)[k].minArgs + i
            && o.overloads[i].call.table == table
            && o.overloads[i].call.index == CounterAfterCtors(s) + SlotsOf(Overridden(s.virtuals)[..k]) + i
  {
    var vs := Overridden(s.virtuals);
    var c := CounterAfterCtors(s) + SlotsOf(vs[..k]);
    OverridesAt(env, s, vs, table, CounterAfterCtors(s), k);
    OverloadIndex(env, s, vs[k], table, c, i);
  }

  /** What `createInterceptor` records about the class: its subject, name and base, its
      scope, the table its overrides index, and its routines. */
  lemma CreateInterceptorShape(env: Env, g: GenState, s: Aggregate, scopeTag: string)
    requires CreateInterceptor(env, g, s, scopeTag).Ok?
    ensures var ic := CreateInterceptor(env, g, s, scopeTag).value.0;
            && ic.subject == s.id && ic.name == "I" + s.name && ic.baseName == s.fullName
            && ic.scope == Made(InterceptorScope, s.id) && ic.table == ScopeTableName(scopeTag)
            && ic.routines == InterceptorRoutines(s)
  {
  }

  // ---------------------------------------------------------------------------
  // The counter is the position in the interceptor's scope table

  /** What the subject's forwarded constructors and overridden methods must satisfy for
      the counter to match the table: each has at least as many parameters as it
      requires and is available, and no overridden method is a destructor. */
  ghost predicate Regular(s: Aggregate)
  {
    && (forall i :: 0 <= i < |ForwardedCtors(s.routines)| ==>
          ForwardedCtors(s.routines)[i].minArgs <= ForwardedCtors(s.routines)[i].maxArgs
          && ForwardedCtors(s.routines)[i].available)
    && (forall i :: 0 <= i < |Overridden(s.virtuals)| ==>
          Overridden(s.virtuals)[i].minArgs <= Overridden(s.virtuals)[i].maxArgs
          && Overridden(s.virtuals)[i].available && !Overridden(s.virtuals)[i].IsDestructor())
  }

  lemma {:induction false} WidthsAppend(a: seq<Routine>, b: seq<Routine>)
    ensures Widths(a + b) == Widths(a) + Widths(b)
    decreases |a|
  {
    if |a| == 0 {
      assert a + b == b;
    } else {
      assert (a + b)[1..] == a[1..] + b;
      WidthsAppend(a[1..], b);
    }
  }

  /** Where no routine requires more arguments than it has, the slot count of
      `createInterceptor` is the number of argument counts. */
  lemma {:induction false} SlotsAreWidths(rs: seq<Routine>)
    requires forall i :: 0 <= i < |rs| ==> rs[i].minArgs <= rs[i].maxArgs
    ensures SlotsOf(rs) == Widths(rs)
    decreases |rs|
  {
    if |rs| > 0 {
      SlotsAreWidths(rs[1..]);
    }
  }

  lemma {:induction false} WidthsPointwise(a: seq<Routine>, b: seq<Routine>)
    requires |a| == |b| && forall i :: 0 <= i < |a| ==> Width(a[i]) == Width(b[i])
    ensures Widths(a) == Widths(b)
    decreases |a|
  {
    if |a| > 0 {
      WidthsPointwise(a[1..], b[1..]);
    }
  }

  /** The routines before the overrides fill the table right after the base link: the
      counter after the constructors is one more than their lines. */
  lemma LeadingWidths(s: Aggregate)
    requires Regular(s)
    ensures 1 + Widths(LeadingMembers(s)) == CounterAfterCtors(s)
  {
    var cs := ForwardedCtors(s.routines);
    var fm := ForwardingMembers(s, cs);
    var d: seq<Routine> := if AddsDefaultCtor(s) then [DefaultCtorMember(s)] else [];
    WidthsAppend([InitMember(s), PyMember(s)] + fm, d);
    WidthsAppend([InitMember(s), PyMember(s)], fm);
    WidthsPointwise(fm, cs);
    SlotsAreWidths(cs);
    assert Widths([InitMember(s), PyMember(s)]) == 2;
  }

  /** The first `k` overrides take as many lines as the counter advanced over them. */
  lemma OverridePrefixWidths(s: Aggregate, k: nat)
    requires Regular(s) && k <= |Overridden(s.virtuals)|
    ensures Widths(OverrideMembers(s, Overridden(s.virtuals))[..k]) == SlotsOf(Overridden(s.virtuals)[..k])
  {
    var vs := Overridden(s.virtuals);
    WidthsPointwise(OverrideMembers(s, vs)[..k], vs[..k]);
    SlotsAreWidths(vs[..k]);
  }

  /** The index of the override of method `k` for `minArgs + i` arguments is the position
      of its routine's line in the table: one base link, the lines of the routines before
      it, and `i`. */
  lemma CounterIsPosition(s: Aggregate, k: nat)
    requires Regular(s) && k < |Overridden(s.virtuals)|
    ensures |LeadingMembers(s)| + k < |InterceptorRoutines(s)|
    ensures InterceptorRoutines(s)[|LeadingMembers(s)| + k] == OverrideMember(s, Overridden(s.virtuals)[k])
    ensures CounterAfterCtors(s) + SlotsOf(Overridden(s.virtuals)[..k])
            == 1 + Widths(InterceptorRoutines(s)[..|LeadingMembers(s)| + k])
  {
    var om := OverrideMembers(s, Overridden(s.virtuals));
    var lead := LeadingMembers(s);
    assert InterceptorRoutines(s)[..|lead| + k] == lead + om[..k];
    WidthsAppend(lead, om[..k]);
    LeadingWidths(s);
    OverridePrefixWidths(s, k);
  }

  predicate AllListed(rs: seq<Routine>)
  {
    forall i :: 0 <= i < |rs| ==> Listed(rs[i], false)
  }

  lemma AllListedAppend(a: seq<Routine>, b: seq<Routine>)
    requires AllListed(a) && AllListed(b)
    ensures AllListed(a + b)
  {
    assert forall i :: |a| <= i < |a + b| ==> (a + b)[i] == b[i - |a|];
  }

  /** Every routine of the interceptor passes the scope table's filter, so the table's
      routine section lists them all, in order. */
  lemma InterceptorRoutinesListed(s: Aggregate)
    requires Regular(s)
    ensures ListedRoutines(InterceptorRoutines(s), false) == InterceptorRoutines(s)
  {
    var cs := ForwardedCtors(s.routines);
    ForwardedCtorsMembers(s.routines);
    assert forall i :: 0 <= i < |cs| ==> cs[i] in cs;
    var fm := ForwardingMembers(s, cs);
    var om := OverrideMembers(s, Overridden(s.virtuals));
    var d: seq<Routine> := if AddsDefaultCtor(s) then [DefaultCtorMember(s)] else [];
    assert AllListed([InitMember(s), PyMember(s)]);
    assert AllListed(fm);
    assert AllListed(d);
    assert AllListed(om);
    AllListedAppend([InitMember(s), PyMember(s)], fm);
    AllListedAppend([InitMember(s), PyMember(s)] + fm, d);
    AllListedAppend(LeadingMembers(s), om);
    ListedRoutinesAll(InterceptorRoutines(s), false);
  }

  /** Override `k` of `overrides`, for `minArgs + i` arguments, calls back into `table` at
      one past the lines of the routines before its own routine `p`, plus `i`; every
      routine is listed in the table, and routine `p` is one the front end implements. */
  ghost predicate Placed(routines: seq<Routine>, overrides: seq<Override>, table: string, implemented: set<ObjId>,
                         p: nat, k: nat, i: nat)
  {
    && ListedRoutines(routines, false) == routines
    && p < |routines| && k < |overrides| && routines[p] == overrides[k].member
    && overrides[k].member.id in implemented
    && i < Width(overrides[k].member) && i < |overrides[k].overloads|
    && overrides[k].overloads[i].call.table == table
    && overrides[k].overloads[i].call.index == 1 + Widths(routines[..p]) + i
  }

  ghost predicate OverridePlaced(ic: Interceptor, scopeTag: string, h: GenState, p: nat, k: nat, i: nat)
  {
    Placed(ic.routines, ic.overrides, ScopeTableName(scopeTag), h.interceptorMethods, p, k, i)
  }

  /** The overrides `createInterceptor` writes for a class are placed among the routines it
      gives the interceptor. */
  lemma OverridesPlaced(env: Env, s: Aggregate, table: string, k: nat, i: nat)
    requires Regular(s)
    requires Overrides(env, s, Overridden(s.virtuals), table, CounterAfterCtors(s)).Ok?
    requires k < |Overridden(s.virtuals)| && i < Width(Overridden(s.virtuals)[k])
    ensures Placed(InterceptorRoutines(s), Overrides(env, s, Overridden(s.virtuals), table, CounterAfterCtors(s)).value,
                   table, OverrideIds(s), |LeadingMembers(s)| + k, k, i)
  {
    var vs := Overridden(s.virtuals);
    OverrideCounter(env, s, table, k, i);
    CounterIsPosition(s, k);
    InterceptorRoutinesListed(s);
    assert OverrideMember(s, vs[k]).id in OverrideIds(s);
  }

  /** Every override of a created interceptor is placed: its callback index counts the
      base link, `_init`, `_py`, the forwarded constructors' overloads, the default
      constructor and the earlier overrides' overloads, which is exactly the lines the
      interceptor's routines before it take in its table. */
  lemma InterceptorOverrideAt(env: Env, g: GenState, s: Aggregate, scopeTag: string, ic: Interceptor, h: GenState,
                              k: nat, i: nat)
    requires Regular(s)
    requires CreateInterceptor(env, g, s, scopeTag) == Ok((ic, h))
    requires k < |Overridden(s.virtuals)| && i < Width(Overridden(s.virtuals)[k])
    ensures OverridePlaced(ic, scopeTag, h, |LeadingMembers(s)| + k, k, i)
  {
    CreateInterceptorShape(env, g, s, scopeTag);
    CreateInterceptorOverrides(env, g, s, scopeTag);
    OverridesPlaced(env, s, ScopeTableName(scopeTag), k, i);
  }

  /** In the table of a class with one public base, the line one past the lines of the
      first `p` listed routines, plus `i`, is the line of routine `p` for `minArgs + i`
      arguments. */
  lemma TableLineOf(env: Env, h: GenState, req: ScopeRequest, p: nat, i: nat, at: int, m: Routine)
    requires ScopeTableOf(env, h, req).Ok? && |PublicBases(req.bases)| == 1
    requires p < |ListedRoutines(req.routines, req.isAbstract)| && ListedRoutines(req.routines, req.isAbstract)[p] == m
    requires m.id in h.interceptorMethods && i < Width(m)
    requires at == 1 + Widths(ListedRoutines(req.routines, req.isAbstract)[..p]) + i
    ensures 0 <= at
    ensures RoutineLineAt(env, ScopeTableOf(env, h, req).value.0.lines, ScopeTableOf(env, h, req).value.1,
                          at as nat, m, req.with, i, 0, true)
  {
    ScopeRoutineLineAt(env, h, req, p, i);
  }

  /** The request `generateEntry` makes for an interceptor class: its scope and hash, its
      routines and one public base (the subject). `generateEntry` passes `Utils.isAbstract`
      of the class; this also asks that to be false, which fails when the subject has a
      private pure virtual method the interceptor does not override. */
  ghost predicate RequestForInterceptor(req: ScopeRequest, ic: Interceptor, scopeTag: string)
  {
    && req.scope == ic.scope && req.scopeTag == scopeTag && req.routines == ic.routines
    && |PublicBases(req.bases)| == 1 && !req.isAbstract
  }

  /** The index an override passes to `__robin_callback` finds its own registration
      line. For an override placed as `InterceptorOverrideAt` shows every created
      interceptor's overrides are, in any table made later from the interceptor's
      request: the callback names that table, and the line at the index is the line of
      the override's routine for the same argument count, which has no implementation
      pointer, so the runtime dispatches it through the virtual table. */
  lemma OverrideIndexIsTablePosition(env: Env, h0: GenState, h: GenState, req: ScopeRequest, ic: Interceptor,
                                     scopeTag: string, p: nat, k: nat, i: nat)
    requires ScopeTableOf(env, h, req).Ok? && RequestForInterceptor(req, ic, scopeTag)
    requires OverridePlaced(ic, scopeTag, h0, p, k, i) && Later(h0, h)
    ensures k < |ic.overrides|
    ensures var o := ic.overrides[k];
            var t := ScopeTableOf(env, h, req).value;
            && i < |o.overloads|
            && o.overloads[i].call.table == t.0.name
            && 0 <= o.overloads[i].call.index
            && RoutineLineAt(env, t.0.lines, t.1, o.overloads[i].call.index as nat, o.member, req.with, i, 0, true)
  {
    assert ListedRoutines(req.routines, req.isAbstract) == ic.routines;
    TableLineOf(env, h, req, p, i, ic.overrides[k].overloads[i].call.index, ic.routines[p]);
  }

  // ---------------------------------------------------------------------------
  // generateInterceptors

  /** A listed class gets an interceptor unless it is a template instantiation, has no
      virtual methods, or cannot be extended. */
  predicate Extensible(a: Aggregate)
  {
    !a.specialized && a.traits.hasVirtuals && a.traits.extendible
  }

  function ExtensibleOnes(as_: seq<Aggregate>): seq<Aggregate>
  {
    if |as_| == 0 then []
    else (if Extensible(as_[0]) then [as_[0]] else []) + ExtensibleOnes(as_[1..])
  }

  /** `generateInterceptors()`: the interceptors, in list order; `scopeTag` gives the
      hash of each new scope. */
  function GenerateInterceptors(env: Env, g: GenState, interceptors: seq<Aggregate>, scopeTag: ObjId -> string)
    : (res: Result<(seq<Interceptor>, GenState)>)
    ensures res.Ok? ==> Later(g, res.value.1)
    decreases |interceptors|
  {
    if |interceptors| == 0 then
      LaterReflexive(g);
      Ok(([], g))
    else
      var s := interceptors[0];
      if !Extensible(s) then GenerateInterceptors(env, g, interceptors[1..], scopeTag)
      else
        var first :- CreateInterceptor(env, g, s, scopeTag(Made(InterceptorScope, s.id)));
        var rest :- GenerateInterceptors(env, first.1, interceptors[1..], scopeTag);
        LaterTransitive(g, first.1, rest.1);
        Ok(([first.0] + rest.0, rest.1))
  }

  /** `ics` are the interceptors of `subjects`, position by position. */
  ghost predicate InterceptorsOf(ics: seq<Interceptor>, subjects: seq<Aggregate>)
  {
    && |ics| == |subjects|
    && forall i :: 0 <= i < |ics| ==>
         && ics[i].subject == subjects[i].id
         && ics[i].name == "I" + subjects[i].name
         && ics[i].baseName == subjects[i].fullName
  }

  lemma InterceptorsOfCons(ic: Interceptor, s: Aggregate, ics: seq<Interceptor>, subjects: seq<Aggregate>)
    requires ic.subject == s.id && ic.name == "I" + s.name && ic.baseName == s.fullName
    requires InterceptorsOf(ics, subjects)
    ensures InterceptorsOf([ic] + ics, [s] + subjects)
  {
  }

  /** One interceptor per extensible listed class, in order, each named `I<name>` and
      deriving from it. */
  lemma {:induction false} GenerateInterceptorsSubjects(env: Env, g: GenState, interceptors: seq<Aggregate>, scopeTag: ObjId -> string)
    requires GenerateInterceptors(env, g, interceptors, scopeTag).Ok?
    ensures InterceptorsOf(GenerateInterceptors(env, g, interceptors, scopeTag).value.0, ExtensibleOnes(interceptors))
    decreases |interceptors|
  {
    if |interceptors| > 0 {
      var s := interceptors[0];
      if !Extensible(s) {
        GenerateInterceptorsSubjects(env, g, interceptors[1..], scopeTag);
      } else {
        var first := CreateInterceptor(env, g, s, scopeTag(Made(InterceptorScope, s.id))).value;
        CreateInterceptorShape(env, g, s, scopeTag(Made(InterceptorScope, s.id)));
        GenerateInterceptorsSubjects(env, first.1, interceptors[1..], scopeTag);
        InterceptorsOfCons(first.0, s, GenerateInterceptors(env, first.1, interceptors[1..], scopeTag).value.0,
                           ExtensibleOnes(interceptors[1..]));
      }
    }
  }
}
