/** The string and type helpers of `Formatters`: reference stripping and the
    touchup / extra-referencing decorations applied to parameter names, argument
    expressions, returned expressions and declarations, plus location and member text. */
module Formatters {
  import opened Support
  import opened Model

  // ---------------------------------------------------------------------------
  // dereference

  /** `dereference`: strips every leading reference node. */
  function Dereference(t: Type): (r: Type)
    ensures !IsReference(r)
    ensures !IsReference(t) ==> r == t
    ensures BaseOf(r) == BaseOf(t)
    ensures PointerDegree(r) == PointerDegree(t)
    ensures TemplateArgsOf(r) == TemplateArgsOf(t)
  {
    if t.Reference? then Dereference(t.target) else t
  }

  /** Number of leading reference nodes. */
  function ReferenceDepth(t: Type): nat
  {
    if t.Reference? then 1 + ReferenceDepth(t.target) else 0
  }

  /** `n` reference nodes wrapped around `t`. */
  function AddReferences(n: nat, t: Type): Type
  {
    if n == 0 then t else Reference(AddReferences(n - 1, t))
  }

  lemma DereferenceIdempotent(t: Type)
    ensures Dereference(Dereference(t)) == Dereference(t)
  {
  }

  /** Stripping loses nothing but the references: putting back as many references as
      were removed gives the original type. */
  lemma {:induction false} DereferenceReconstructs(t: Type)
    ensures AddReferences(ReferenceDepth(t), Dereference(t)) == t
  {
    if t.Reference? {
      DereferenceReconstructs(t.target);
    }
  }

  /** However many references are added to a type, stripping gives the same result. */
  lemma {:induction false} DereferenceAddReferences(n: nat, t: Type)
    ensures Dereference(AddReferences(n, t)) == Dereference(t)
  {
    if n > 0 {
      DereferenceAddReferences(n - 1, t);
    }
  }

  // ---------------------------------------------------------------------------
  // formatParameter / formatArgument

  /** The type and declarator name `formatParameter` hands to `Type.formatCpp`. */
  function ParameterDeclarator(env: Env, t: Type, name: string): (d: (Type, string))
    ensures env.needsExtraReferencing(t) <==> d.1 != name
    ensures env.needsExtraReferencing(t) ==> d.1 == "*" + name
    ensures !(IsReference(d.0) && env.isSmallPrimitive(BaseOf(d.0)))
    ensures BaseOf(d.0) == BaseOf(t) && PointerDegree(d.0) == PointerDegree(t)
    ensures d.0 == t || (IsReference(t) && d.0 == Dereference(t))
  {
    var n := if env.needsExtraReferencing(t) then "*" + name else name;
    var u := if IsReference(t) && env.isSmallPrimitive(BaseOf(t)) then Dereference(t) else t;
    (u, n)
  }

  /** `formatParameter(type, name)`. */
  function FormatParameter(env: Env, t: Type, name: string): (r: string)
    ensures r == env.declare(ParameterDeclarator(env, t, name).0, ParameterDeclarator(env, t, name).1)
  {
    var d := ParameterDeclarator(env, t, name);
    env.declare(d.0, d.1)
  }

  /** `formatArgument(type, name)`: a parameter passed through an extra reference is
      unboxed by `touchdown`. */
  function FormatArgument(env: Env, t: Type, name: string): (r: string)
    ensures env.needsExtraReferencing(t) <==> r != name
    ensures env.needsExtraReferencing(t) ==> r == "touchdown(" + name + ")"
  {
    if env.needsExtraReferencing(t) then "touchdown(" + name + ")" else name
  }

  /** Different parameter names always give different argument expressions. */
  lemma FormatArgumentInjective(env: Env, t: Type, a: string, b: string)
    ensures FormatArgument(env, t, a) == FormatArgument(env, t, b) <==> a == b
  {
    if env.needsExtraReferencing(t) && FormatArgument(env, t, a) == FormatArgument(env, t, b) {
      var pre := "touchdown(";
      assert |a| == |b|;
      assert forall i :: 0 <= i < |a| ==> a[i] == FormatArgument(env, t, a)[|pre| + i];
      assert forall i :: 0 <= i < |b| ==> b[i] == FormatArgument(env, t, b)[|pre| + i];
    }
  }

  /** A parameter is declared through a pointer exactly when its argument is unboxed:
      the two decorations are decided by the same question. */
  lemma ParameterAndArgumentAgree(env: Env, t: Type, name: string)
    ensures ParameterDeclarator(env, t, name).1 == "*" + name
        <==> FormatArgument(env, t, name) == "touchdown(" + name + ")"
  {
  }

  // ---------------------------------------------------------------------------
  // formatExpression / formatDeclaration

  /** The type a returned expression or a declaration is judged by: a reference to a
      primitive counts as the primitive itself. */
  function ValueType(env: Env, t: Type): (r: Type)
    ensures !(IsReference(r) && env.isPrimitive(BaseOf(r)))
    ensures BaseOf(r) == BaseOf(t)
    ensures r == t || (IsReference(t) && env.isPrimitive(BaseOf(t)) && r == Dereference(t))
  {
    if IsReference(t) && env.isPrimitive(BaseOf(t)) then Dereference(t) else t
  }

  /** `formatExpression(type, expression)`: boxed by `touchup` when the type has a
      touchup, verbatim otherwise. */
  function FormatExpression(env: Env, t: Type, e: string): (r: string)
    ensures env.touchup(ValueType(env, t)).Some? <==> r != e
    ensures env.touchup(ValueType(env, t)).Some? ==> r == "touchup(" + e + ")"
  {
    var u := ValueType(env, t);
    if env.touchup(u).None? then e else "touchup(" + e + ")"
  }

  /** A reference to a primitive is formatted exactly like the primitive value. */
  lemma PrimitiveReferenceFormatsAsValue(env: Env, t: Type, e: string)
    requires env.isPrimitive(BaseOf(t))
    ensures FormatExpression(env, t, e) == FormatExpression(env, Dereference(t), e)
  {
  }

  /** The type and declarator name `formatDeclaration` hands to `Type.formatCpp`. */
  function DeclarationDeclarator(env: Env, t: Type, name: string, scheme: char): (d: (Type, string))
    ensures env.touchup(ValueType(env, t)).Some? ==> d.0 == env.touchup(ValueType(env, t)).value
    ensures env.touchup(ValueType(env, t)).None? ==> d.0 == ValueType(env, t)
    ensures env.needsExtraReferencing(d.0) <==> d.1 != name
    ensures env.needsExtraReferencing(d.0) ==> d.1 == [scheme] + name
  {
    var u := ValueType(env, t);
    var v := if env.touchup(u).Some? then env.touchup(u).value else u;
    var n := if env.needsExtraReferencing(v) then [scheme] + name else name;
    (v, n)
  }

  /** `formatDeclaration(type, name, extraRefScheme)`. */
  function FormatDeclaration(env: Env, t: Type, name: string, scheme: char): (r: string)
    ensures r == env.declare(DeclarationDeclarator(env, t, name, scheme).0,
                             DeclarationDeclarator(env, t, name, scheme).1)
  {
    var d := DeclarationDeclarator(env, t, name, scheme);
    env.declare(d.0, d.1)
  }

  // ---------------------------------------------------------------------------
  // formatLocation

  const UNKNOWN_LOCATION := "location unknown"

  /** `formatLocation(entity)`. */
  function FormatLocation(decl: Option<Declaration>): (r: string)
    ensures decl.None? <==> r == UNKNOWN_LOCATION
    ensures decl.Some? ==> |r| > 5 && r[..5] == "from "
  {
    match decl
    case None => UNKNOWN_LOCATION
    case Some(d) =>
      var r := "from " + d.file + ":" + NatToString(d.line);
      assert r[0] == 'f' != UNKNOWN_LOCATION[0];
      r
  }

  /** Position of the last occurrence of `c` in `s`. */
  function LastIndexOf(s: string, c: char): (k: Option<nat>)
    ensures k.Some? ==> k.value < |s| && s[k.value] == c
  {
    if |s| == 0 then None
    else if s[|s| - 1] == c then Some(|s| - 1)
    else LastIndexOf(s[..|s| - 1], c)
  }

  lemma {:induction false} LastIndexOfAfter(a: string, c: char, b: string)
    requires forall i :: 0 <= i < |b| ==> b[i] != c
    ensures LastIndexOf(a + [c] + b, c) == Some(|a|)
    decreases |b|
  {
    var s := a + [c] + b;
    if |b| > 0 {
      assert s[|s| - 1] == b[|b| - 1];
      assert s[..|s| - 1] == a + [c] + b[..|b| - 1];
      LastIndexOfAfter(a, c, b[..|b| - 1]);
    } else {
      assert s[|s| - 1] == c;
    }
  }

  /** Reads a location text back: the reference reading of `formatLocation`. */
  function ParseLocation(text: string): Option<Declaration>
  {
    if text == UNKNOWN_LOCATION then None
    else if |text| > 5 && text[..5] == "from " then
      match LastIndexOf(text, ':')
      case Some(k) =>
        if k >= 5 && AllDigits(text[k + 1..])
        then Some(Declaration(text[5..k], ParseDigits(text[k + 1..])))
        else None
      case None => None
    else None
  }

  /** The location text determines the declaration site it was made from. */
  lemma LocationRoundTrip(decl: Option<Declaration>)
    ensures ParseLocation(FormatLocation(decl)) == decl
  {
    if decl.Some? {
      var d := decl.value;
      var digits := NatToString(d.line);
      var head := "from " + d.file;
      var text := head + [':'] + digits;
      assert FormatLocation(decl) == text;
      assert text != UNKNOWN_LOCATION;
      assert |text| > 5 && text[..5] == "from ";
      DigitsHaveNoColon(digits);
      LastIndexOfAfter(head, ':', digits);
      assert text[|head| + 1..] == digits;
      assert text[5..|head|] == d.file;
      ParseNatToString(d.line);
    }
  }

  lemma DigitsHaveNoColon(digits: string)
    requires AllDigits(digits)
    ensures forall i :: 0 <= i < |digits| ==> digits[i] != ':'
  {
    forall i | 0 <= i < |digits| ensures digits[i] != ':' { assert IsDigit(digits[i]); }
  }

  // ---------------------------------------------------------------------------
  // formatMember

  /** `formatMember(field)`: a class member is reached through `self`, anything else
      by its clean full name. */
  function FormatMember(f: Field): (r: string)
    ensures f.container.InAggregate? ==> r == "self->" + f.name
    ensures !f.container.InAggregate? ==> r == f.cleanName
  {
    if f.container.InAggregate? then "self->" + f.name else f.cleanName
  }

  /** Reads a member reference back: the member name after `self->`, or nothing for a
      reference by full name. */
  function ReadMember(text: string): Option<string>
  {
    if |text| >= 6 && text[..6] == "self->" then Some(text[6..]) else None
  }

  /** The member reference tells a class member from any other field, and names the class
      member it reaches, when no full name starts with `self->`. */
  lemma MemberRoundTrip(f: Field)
    requires !(|f.cleanName| >= 6 && f.cleanName[..6] == "self->")
    ensures ReadMember(FormatMember(f)) == (if f.container.InAggregate? then Some(f.name) else None)
  {
    if f.container.InAggregate? {
      var text := "self->" + f.name;
      assert text[..6] == "self->" && text[6..] == f.name;
    }
  }
}
