/** The generated C symbol names. Every one of them is a fixed prefix followed by `uid`
    numbers and single-letter markers, so the wrapper side and the registration side agree
    on a name exactly when they agree on the numbers, and different numbers never collide. */
module Names {
  import opened Support

  // ---------------------------------------------------------------------------
  // Splitting a decimal run from what follows it

  /** Length of the leading run of decimal digits. */
  function DigitRun(s: string): nat
  {
    if |s| == 0 || !IsDigit(s[0]) then 0 else 1 + DigitRun(s[1..])
  }

  lemma {:induction false} DigitRunOf(a: string, c: char, b: string)
    requires AllDigits(a) && !IsDigit(c)
    ensures DigitRun(a + [c] + b) == |a|
    decreases |a|
  {
    var s := a + [c] + b;
    if |a| == 0 {
      assert s[0] == c;
    } else {
      assert s[0] == a[0];
      assert s[1..] == a[1..] + [c] + b;
      DigitRunOf(a[1..], c, b);
    }
  }

  /** A run of digits followed by a non-digit determines both. */
  lemma {:induction false} SplitAfterDigits(a: string, c: char, b: string, a': string, c': char, b': string)
    requires AllDigits(a) && AllDigits(a') && !IsDigit(c) && !IsDigit(c')
    requires a + [c] + b == a' + [c'] + b'
    ensures a == a' && c == c' && b == b'
  {
    var s := a + [c] + b;
    DigitRunOf(a, c, b);
    DigitRunOf(a', c', b');
    assert a == s[..|a|] == a';
    assert c == s[|a|] == c';
    assert b == s[|a| + 1..] == b';
  }

  lemma {:induction false} StripPrefix(p: string, x: string, y: string)
    requires p + x == p + y
    ensures x == y
  {
    assert x == (p + x)[|p|..];
    assert y == (p + y)[|p|..];
  }

  /** A decimal number, a marker character, and whatever follows: the shape shared by
      every numbered symbol name. */
  function DigitsThen(u: nat, marker: char, rest: string): string
  {
    NatToString(u) + [marker] + rest
  }

  /** Such a shape determines its number, its marker and its rest. */
  lemma DigitsThenInjective(u: nat, m: char, rest: string, u': nat, m': char, rest': string)
    requires !IsDigit(m) && !IsDigit(m')
    requires DigitsThen(u, m, rest) == DigitsThen(u', m', rest')
    ensures u == u' && m == m' && rest == rest'
  {
    SplitAfterDigits(NatToString(u), m, rest, NatToString(u'), m', rest');
    NatToStringInjective(u, u');
  }

  // ---------------------------------------------------------------------------
  // Routine wrappers and their prototypes

  function WithMarker(with: bool): char { if with then 'r' else 's' }

  /** `routine_<uid>{r|s}<n>`: the flat wrapper of a routine for `n` arguments, instance
      form (`r`) or static form (`s`). */
  function WrapperName(u: nat, with: bool, n: nat): (r: string)
    ensures |r| > 8 && r[..8] == "routine_"
  {
    "routine_" + DigitsThen(u, WithMarker(with), NatToString(n))
  }

  /** The name of the `RegData` array that describes the parameters of that wrapper. */
  function ProtoName(u: nat, with: bool, n: nat): (r: string)
    ensures r == WrapperName(u, with, n) + "_proto"
  {
    WrapperName(u, with, n) + "_proto"
  }

  /** Two wrapper names are equal only for the same routine number, form and argument count. */
  lemma WrapperNameInjective(u: nat, w: bool, n: nat, u': nat, w': bool, n': nat)
    requires WrapperName(u, w, n) == WrapperName(u', w', n')
    ensures u == u' && w == w' && n == n'
  {
    StripPrefix("routine_", DigitsThen(u, WithMarker(w), NatToString(n)),
                            DigitsThen(u', WithMarker(w'), NatToString(n')));
    DigitsThenInjective(u, WithMarker(w), NatToString(n), u', WithMarker(w'), NatToString(n'));
    NatToStringInjective(n, n');
  }

  lemma ProtoNameInjective(u: nat, w: bool, n: nat, u': nat, w': bool, n': nat)
    requires ProtoName(u, w, n) == ProtoName(u', w', n')
    ensures u == u' && w == w' && n == n'
  {
    var a := WrapperName(u, w, n);
    var b := WrapperName(u', w', n');
    assert a == (a + "_proto")[..|a|];
    assert |a| == |b|;
    assert b == (b + "_proto")[..|b|];
    WrapperNameInjective(u, w, n, u', w', n');
  }

  /** The pointer written into a registration line: the prototype array offset by the
      number of leading parameters the caller supplies itself. */
  function ProtoReference(u: nat, with: bool, n: nat, nSkip: nat): string
  {
    ProtoName(u, with, n) + "+" + NatToString(nSkip)
  }

  /** The implementation pointer written into a registration line. */
  function SymbolOf(wrapper: string): string
  {
    "(void*)&" + wrapper
  }

  // ---------------------------------------------------------------------------
  // Field accessors

  function FieldMarker(with: bool): char { if with then 'f' else 's' }

  /** `data_get_<uid>{f|s}`. */
  function GetterName(u: nat, with: bool): (r: string)
    ensures |r| > 9 && r[..9] == "data_get_"
  {
    "data_get_" + DigitsThen(u, FieldMarker(with), "")
  }

  /** `data_set_<uid>{f|s}`. */
  function SetterName(u: nat, with: bool): string
  {
    "data_set_" + DigitsThen(u, FieldMarker(with), "")
  }

  /** `sink_<uid>{f|s}_proto`: the one-parameter prototype of a setter. */
  function SinkProtoName(u: nat, with: bool): string
  {
    "sink_" + DigitsThen(u, FieldMarker(with), "_proto")
  }

  lemma GetterNameInjective(u: nat, w: bool, u': nat, w': bool)
    requires GetterName(u, w) == GetterName(u', w')
    ensures u == u' && w == w'
  {
    StripPrefix("data_get_", DigitsThen(u, FieldMarker(w), ""), DigitsThen(u', FieldMarker(w'), ""));
    DigitsThenInjective(u, FieldMarker(w), "", u', FieldMarker(w'), "");
  }

  // ---------------------------------------------------------------------------
  // Casts between a class and its bases

  /** `<uid(from scope)>_to_<uid(to scope)>`. */
  function CastSuffix(from: nat, to: nat): string
  {
    DigitsThen(from, '_', "to_" + NatToString(to))
  }

  function UpcastName(derived: nat, base: nat): string { "upcast_" + CastSuffix(derived, base) }

  function DowncastName(base: nat, derived: nat): string { "downcast_" + CastSuffix(base, derived) }

  /** A cast suffix names its two scopes. */
  lemma CastSuffixInjective(a: nat, b: nat, a': nat, b': nat)
    requires CastSuffix(a, b) == CastSuffix(a', b')
    ensures a == a' && b == b'
  {
    DigitsThenInjective(a, '_', "to_" + NatToString(b), a', '_', "to_" + NatToString(b'));
    StripPrefix("to_", NatToString(b), NatToString(b'));
    NatToStringInjective(b, b');
  }

  // ---------------------------------------------------------------------------
  // Per-class special wrappers and the typedef and interceptor names

  function ScopeWrapperName(kind: string, u: nat): string { kind + NatToString(u) }

  const DEFAULT_CTOR_PREFIX := "ctor_"
  const ASSIGN_PREFIX := "assign_"
  const CLONE_PREFIX := "clone_"
  const OUTPUT_PREFIX := "output_"
  const TO_STRING_PREFIX := "toString_"
  const DTOR_PREFIX := "dtor_"

  /** `alias_<uid>`: the proxy class table of an encapsulated typedef. */
  function AliasTableName(u: nat): string { "alias_" + NatToString(u) }

  /** `intercepted_<uid(field)>`: the public typedef an interceptor introduces for an
      accessible field. */
  function InterceptedTypeName(u: nat): string { "intercepted_" + NatToString(u) }

  /** `scope_<tag>`: the table of a class scope, named by its opaque hash tag. */
  function ScopeTableName(tag: string): string { "scope_" + tag }

  /** `interceptor_arg<i>`: the generic parameter names of an interceptor override. */
  function ArgName(i: nat): string { "interceptor_arg" + NatToString(i) }

  lemma ArgNameInjective(i: nat, j: nat)
    ensures ArgName(i) == ArgName(j) <==> i == j
  {
    if ArgName(i) == ArgName(j) {
      StripPrefix("interceptor_arg", NatToString(i), NatToString(j));
      NatToStringInjective(i, j);
    }
  }
}
