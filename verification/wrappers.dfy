/** The flat wrappers and parameter prototypes of `CodeGenerator`: the registration type
    string of a parameter (`writeFlatBase`, `writeDecoratedFlatBase` and the marker
    prefix of `generateRegistrationPrototype(Routine, …)`), the flat routine wrapper, the
    expansion of a routine into one wrapper/prototype pair per argument count, the field
    accessors, and the up/down casts of a class. */
module Wrappers {
  import opened Support
  import opened Model
  import opened Identity
  import opened Names
  import opened State

  function Min(a: int, b: int): int { if a <= b then a else b }

  /** How many argument counts `minArgs..maxArgs` a routine is expanded into. */
  function Width(r: Routine): nat
  {
    if r.minArgs <= r.maxArgs then r.maxArgs - r.minArgs + 1 else 0
  }

  // ---------------------------------------------------------------------------
  // writeFlatBase / writeDecoratedFlatBase

  function TemplateArgText(env: Env, a: TemplateArg): string
  {
    match a
    case UnknownArg => "?"
    case TypenameArg(t) => env.cleanFormat(t)
    case ValueArg(text) => text
  }

  /** The texts of a template argument list, in order; an unknown argument shows as `?`. */
  function TemplateArgTexts(env: Env, args: seq<TemplateArg>): (r: seq<string>)
    ensures |r| == |args|
    ensures forall i :: 0 <= i < |args| ==> r[i] == TemplateArgText(env, args[i])
    ensures forall i :: 0 <= i < |args| && args[i].UnknownArg? ==> r[i] == "?"
  {
    seq(|args|, i requires 0 <= i < |args| => TemplateArgText(env, args[i]))
  }

  /** `writeFlatBase(type)`: the clean name of the original type's base, followed by
      `< a,b,… >` when the type carries template arguments. */
  function FlatBase(env: Env, t: Type): (r: string)
    ensures var u := env.originalType(t);
            var name := env.cleanName(BaseOf(u));
            && |name| <= |r| && r[..|name|] == name
            && (TemplateArgsOf(u).None? <==> r == name)
            && (TemplateArgsOf(u).Some? ==>
                  r == name + "< " + Join(TemplateArgTexts(env, TemplateArgsOf(u).value), ",") + " >")
  {
    var u := env.originalType(t);
    var name := env.cleanName(BaseOf(u));
    match TemplateArgsOf(u)
    case None => name
    case Some(args) => name + "< " + Join(TemplateArgTexts(env, args), ",") + " >"
  }

  /** When no argument text contains a comma, the rendered list has exactly one comma
      between consecutive arguments, so the argument count can be read back. */
  lemma {:induction false} TemplateListCommas(pieces: seq<string>)
    requires forall i :: 0 <= i < |pieces| ==> Count(pieces[i], ',') == 0
    ensures Count(Join(pieces, ","), ',') == (if |pieces| == 0 then 0 else |pieces| - 1)
    decreases |pieces|
  {
    if |pieces| >= 2 {
      TemplateListCommas(pieces[1..]);
      CountAppend(pieces[0], ",", ',');
      CountAppend(pieces[0] + ",", Join(pieces[1..], ","), ',');
      assert Count(",", ',') == 1 by {
        assert ","[1..] == "";
      }
    }
  }

  /** The type reached by following typedef bases until the base is not an alias. */
  function ResolveAliases(t: Type): (r: Type)
    ensures !BaseOf(r).AliasBase?
    decreases TypeSize(t)
  {
    if BaseOf(t).AliasBase? then
      BaseSmallerThanType(t);
      ResolveAliases(BaseOf(t).aliased)
    else t
  }

  /** `writeDecoratedFlatBase(type)`, as the recursion the generator writes: an alias base is
      replaced by its aliased type, an enum base is marked with `#`, an array with `[]`. */
  function DecoratedFlatBase(env: Env, t: Type): (r: string)
    ensures var u := ResolveAliases(t);
            r == (if BaseOf(u).EnumBase? then "#" else "") + FlatBase(env, u) + (if IsArray(u) then "[]" else "")
    decreases TypeSize(t)
  {
    if BaseOf(t).AliasBase? then
      BaseSmallerThanType(t);
      DecoratedFlatBase(env, BaseOf(t).aliased)
    else
      (if BaseOf(t).EnumBase? then "#" else "") + FlatBase(env, t) + (if IsArray(t) then "[]" else "")
  }

  // ---------------------------------------------------------------------------
  // The marker prefix of a parameter's type string

  /** The markers written before the base name of a parameter in its prototype. */
  function Markers(env: Env, p: Parameter): (m: string)
    ensures var t := env.originalType(p.ptype);
            var k := PointerDegree(t);
            !BaseOf(t).Primitive? ==>
              && ((|m| > 0 && m[0] == '>') <==> p.isOutput)
              && Count(m, '>') == (if p.isOutput then 1 else 0)
              && Count(m, '*') == (if p.isOutput then (if k >= 1 then k - 1 else 0) else k)
              && Count(m, '&') == (if !p.isOutput && IsReference(t) then 1 else 0)
                                  + (if env.needsExtraReferencing(t) then 1 else 0)
              && |m| == Count(m, '>') + Count(m, '*') + Count(m, '&')
              && (forall i :: 0 < i < |m| - 1 ==> m[i] == '*')
              && (!p.isOutput && IsReference(t) ==> |m| > 0 && m[0] == '&')
              && (env.needsExtraReferencing(t) ==> |m| > 0 && m[|m| - 1] == '&')
    ensures var t := env.originalType(p.ptype);
            BaseOf(t).Primitive? ==>
              m == (if BaseOf(t).name == "char" && PointerDegree(t) > 0 then "*" else "")
  {
    var t := env.originalType(p.ptype);
    var k := PointerDegree(t) as int;
    if !BaseOf(t).Primitive? then
      var lead := if p.isOutput then ">" else if IsReference(t) then "&" else "";
      var stars := Repeat('*', if p.isOutput then k - 1 else k);
      var extra := if env.needsExtraReferencing(t) then "&" else "";
      MarkerCounts(lead, stars, extra, k, p.isOutput);
      MarkerOrder(lead, stars, extra);
      lead + stars + extra
    else if BaseOf(t).name == "char" && k > 0 then "*"
    else ""
  }

  /** Counting lemma behind `Markers`. */
  lemma {:induction false} MarkerCounts(lead: string, stars: string, extra: string, k: int, output: bool)
    requires lead == ">" || lead == "&" || lead == ""
    requires output <==> lead == ">"
    requires stars == Repeat('*', if output then k - 1 else k)
    requires extra == "&" || extra == ""
    ensures var m := lead + stars + extra;
            && Count(m, '>') == (if output then 1 else 0)
            && Count(m, '*') == (if output then (if k >= 1 then k - 1 else 0) else (if k >= 0 then k else 0))
            && Count(m, '&') == (if lead == "&" then 1 else 0) + (if extra == "&" then 1 else 0)
            && |m| == Count(m, '>') + Count(m, '*') + Count(m, '&')
  {
    var j := if output then k - 1 else k;
    forall c | c == '>' || c == '*' || c == '&'
      ensures Count(lead + stars + extra, c) == Count(lead, c) + Count(stars, c) + Count(extra, c)
    {
      CountAppend(lead, stars, c);
      CountAppend(lead + stars, extra, c);
    }
    CountRepeat('*', '>', j);
    CountRepeat('*', '*', j);
    CountRepeat('*', '&', j);
    assert ">"[1..] == "" && "&"[1..] == "";
  }

  /** Order behind `Markers`: the lead mark opens the markers, the extra `&` closes them,
      and everything between is a star. */
  lemma MarkerOrder(lead: string, stars: string, extra: string)
    requires |lead| <= 1 && |extra| <= 1
    requires forall i :: 0 <= i < |stars| ==> stars[i] == '*'
    ensures var m := lead + stars + extra;
            && (forall i :: 0 < i < |m| - 1 ==> m[i] == '*')
            && (|lead| == 1 ==> m[0] == lead[0])
            && (|extra| == 1 ==> m[|m| - 1] == extra[0])
  {
    var m := lead + stars + extra;
    forall i | 0 < i < |m| - 1 ensures m[i] == '*' {
      assert |lead| <= i < |lead| + |stars|;
      assert m[i] == stars[i - |lead|];
    }
  }

  /** The type string of one parameter in a routine prototype. */
  function ParamTypeString(env: Env, p: Parameter): string
  {
    Markers(env, p) + DecoratedFlatBase(env, env.originalType(p.ptype))
  }

  // ---------------------------------------------------------------------------
  // Reading a type string back

  /** The clean name `writeFlatBase` starts with. */
  function FlatName(env: Env, t: Type): string
  {
    env.cleanName(BaseOf(env.originalType(t)))
  }

  /** A name the front end can tell apart from the marks around it: not empty, not
      starting with a marker or `#`, not ending with `]`. */
  predicate ReadableName(name: string)
  {
    && |name| > 0
    && name[0] != '>' && name[0] != '&' && name[0] != '*' && name[0] != '#'
    && name[|name| - 1] != ']'
  }

  /** Template argument texts that can be read back: none empty, none with a comma. */
  predicate ReadableArgs(texts: seq<string>)
  {
    forall i, j :: 0 <= i < |texts| && 0 <= j < |texts[i]| ==> texts[i][j] != ','
  }

  /** Number of leading `*` of `s`. */
  function LeadingStars(s: string): (n: nat)
    ensures n <= |s|
    ensures forall i :: 0 <= i < n ==> s[i] == '*'
    ensures n < |s| ==> s[n] != '*'
  {
    if |s| > 0 && s[0] == '*' then
      var n := 1 + LeadingStars(s[1..]);
      assert forall i :: 1 <= i < n ==> s[i] == s[1..][i - 1];
      n
    else 0
  }

  /** The markers read off the front of a type string, and what follows them. */
  datatype MarkerParts = MarkerParts(output: bool, leadAmp: bool, stars: nat, trailAmp: bool, rest: string)

  /** Reads `>` or `&`, then a run of `*`, then `&`. */
  function ReadMarkers(s: string): MarkerParts
  {
    var output := |s| > 0 && s[0] == '>';
    var s1 := if output then s[1..] else s;
    var leadAmp := !output && |s1| > 0 && s1[0] == '&';
    ReadStars(output, leadAmp, if leadAmp then s1[1..] else s1)
  }

  /** Reads the run of `*` and the `&` after it. */
  function ReadStars(output: bool, leadAmp: bool, s: string): MarkerParts
  {
    var n := LeadingStars(s);
    var rest := s[n..];
    var trailAmp := |rest| > 0 && rest[0] == '&';
    MarkerParts(output, leadAmp, n, trailAmp, if trailAmp then rest[1..] else rest)
  }

  /** The enumeration mark, the flat base and the array mark of a decorated base. */
  datatype DecoratedParts = DecoratedParts(isEnum: bool, flat: string, isArray: bool)

  /** Reads `#` off the front and `[]` off the back. */
  function ReadDecorated(s: string): DecoratedParts
  {
    var isEnum := |s| > 0 && s[0] == '#';
    var s1 := if isEnum then s[1..] else s;
    var isArray := |s1| >= 2 && s1[|s1| - 2..] == "[]";
    DecoratedParts(isEnum, if isArray then s1[..|s1| - 2] else s1, isArray)
  }

  /** Reads a type string: the inverse of `ParamTypeString` as far as the text allows. */
  function ReadTypeString(s: string): (MarkerParts, DecoratedParts)
  {
    var m := ReadMarkers(s);
    (m, ReadDecorated(m.rest))
  }

  /** Reads a flat base: the name before the first `<`, and the comma-separated texts
      between `< ` and ` >`. */
  function ReadFlatBase(s: string): (string, Option<seq<string>>)
  {
    match IndexOf(s, '<')
    case None => (s, None)
    case Some(i) =>
      if |s| >= i + 4 && s[i..i + 2] == "< " && s[|s| - 2..] == " >" then
        var inner := s[i + 2..|s| - 2];
        (s[..i], Some(if inner == "" then [] else Split(inner, ',')))
      else (s, None)
  }

  lemma {:induction false} LeadingStarsOf(stars: string, rest: string)
    requires forall i :: 0 <= i < |stars| ==> stars[i] == '*'
    requires |rest| > 0 ==> rest[0] != '*'
    ensures LeadingStars(stars + rest) == |stars|
    decreases |stars|
  {
    if |stars| > 0 {
      assert (stars + rest)[1..] == stars[1..] + rest;
      LeadingStarsOf(stars[1..], rest);
    } else {
      assert stars + rest == rest;
    }
  }

  /** Reading the stars in front of an `&` and text that starts with neither `*` nor `&`. */
  lemma ReadStarsAmp(output: bool, leadAmp: bool, stars: string, tail: string)
    requires forall i :: 0 <= i < |stars| ==> stars[i] == '*'
    requires |tail| > 0 ==> tail[0] != '*' && tail[0] != '&'
    ensures ReadStars(output, leadAmp, stars + ("&" + tail)) == MarkerParts(output, leadAmp, |stars|, true, tail)
  {
    var x := "&" + tail;
    LeadingStarsOf(stars, x);
    assert (stars + x)[|stars|..] == x;
    assert x[1..] == tail;
  }

  /** Reading the stars in front of text that starts with neither `*` nor `&`. */
  lemma ReadStarsPlain(output: bool, leadAmp: bool, stars: string, tail: string)
    requires forall i :: 0 <= i < |stars| ==> stars[i] == '*'
    requires |tail| > 0 ==> tail[0] != '*' && tail[0] != '&'
    ensures ReadStars(output, leadAmp, stars + tail) == MarkerParts(output, leadAmp, |stars|, false, tail)
  {
    LeadingStarsOf(stars, tail);
    assert (stars + tail)[|stars|..] == tail;
  }

  /** After a `>`, the rest is read as stars and an `&`. */
  lemma ReadMarkersOutput(body: string)
    ensures ReadMarkers(">" + body) == ReadStars(true, false, body)
  {
    assert (">" + body)[1..] == body;
  }

  /** After an `&` (and no `>`), the rest is read as stars and an `&`. */
  lemma ReadMarkersAmp(body: string)
    ensures ReadMarkers("&" + body) == ReadStars(false, true, body)
  {
    assert ("&" + body)[1..] == body;
  }

  /** Reading stars and an `&` in front of text that starts with neither `*` nor `&`. */
  lemma ReadStarsOf(output: bool, leadAmp: bool, stars: string, extra: string, tail: string)
    requires extra == "&" || extra == ""
    requires forall i :: 0 <= i < |stars| ==> stars[i] == '*'
    requires |tail| > 0 ==> tail[0] != '*' && tail[0] != '&'
    ensures ReadStars(output, leadAmp, stars + extra + tail) == MarkerParts(output, leadAmp, |stars|, extra == "&", tail)
  {
    if extra == "&" {
      assert stars + extra + tail == stars + ("&" + tail);
      ReadStarsAmp(output, leadAmp, stars, tail);
    } else {
      assert stars + extra + tail == stars + tail;
      ReadStarsPlain(output, leadAmp, stars, tail);
    }
  }

  /** Reading markers written as a lead mark, a run of stars and an extra `&` in front of
      text that starts with none of `>`, `*` and `&`. Everything is recovered, except that
      a lone `&` with no stars reads as a lead `&`. */
  lemma ReadMarkersOf(lead: string, stars: string, extra: string, tail: string)
    requires lead == ">" || lead == "&" || lead == ""
    requires extra == "&" || extra == ""
    requires forall i :: 0 <= i < |stars| ==> stars[i] == '*'
    requires |tail| > 0 ==> tail[0] != '*' && tail[0] != '&' && tail[0] != '>'
    ensures var lone := lead == "" && |stars| == 0 && extra == "&";
            ReadMarkers(lead + stars + extra + tail)
            == MarkerParts(lead == ">", lead == "&" || lone, |stars|, extra == "&" && !lone, tail)
  {
    if lead == ">" {
      ReadMarkersAfterOutput(stars, extra, tail);
    } else if lead == "&" {
      ReadMarkersAfterAmp(stars, extra, tail);
    } else if |stars| == 0 && extra == "&" {
      ReadMarkersLoneAmp(tail);
    } else {
      ReadMarkersBare(stars, extra, tail);
    }
  }

  lemma ReadMarkersAfterOutput(stars: string, extra: string, tail: string)
    requires extra == "&" || extra == ""
    requires forall i :: 0 <= i < |stars| ==> stars[i] == '*'
    requires |tail| > 0 ==> tail[0] != '*' && tail[0] != '&'
    ensures ReadMarkers(">" + stars + extra + tail) == MarkerParts(true, false, |stars|, extra == "&", tail)
  {
    var body := stars + extra + tail;
    assert ">" + stars + extra + tail == ">" + body;
    ReadMarkersOutput(body);
    ReadStarsOf(true, false, stars, extra, tail);
  }

  lemma ReadMarkersAfterAmp(stars: string, extra: string, tail: string)
    requires extra == "&" || extra == ""
    requires forall i :: 0 <= i < |stars| ==> stars[i] == '*'
    requires |tail| > 0 ==> tail[0] != '*' && tail[0] != '&'
    ensures ReadMarkers("&" + stars + extra + tail) == MarkerParts(false, true, |stars|, extra == "&", tail)
  {
    var body := stars + extra + tail;
    assert "&" + stars + extra + tail == "&" + body;
    ReadMarkersAmp(body);
    ReadStarsOf(false, true, stars, extra, tail);
  }

  lemma ReadMarkersLoneAmp(tail: string)
    requires |tail| > 0 ==> tail[0] != '*' && tail[0] != '&'
    ensures ReadMarkers("" + "" + "&" + tail) == MarkerParts(false, true, 0, false, tail)
  {
    assert "" + "" + "&" + tail == "&" + tail;
    ReadMarkersAmp(tail);
    ReadStarsPlain(false, true, "", tail);
    assert "" + tail == tail;
  }

  lemma ReadMarkersBare(stars: string, extra: string, tail: string)
    requires extra == "&" || extra == ""
    requires forall i :: 0 <= i < |stars| ==> stars[i] == '*'
    requires |tail| > 0 ==> tail[0] != '*' && tail[0] != '&' && tail[0] != '>'
    requires |stars| > 0 || extra == ""
    ensures ReadMarkers("" + stars + extra + tail) == MarkerParts(false, false, |stars|, extra == "&", tail)
  {
    var body := stars + extra + tail;
    assert "" + stars + extra + tail == body;
    assert |body| > 0 ==> body[0] != '>' && body[0] != '&';
    ReadStarsOf(false, false, stars, extra, tail);
  }

  /** Reading a decorated base back: the marks and the flat base are recovered. */
  lemma ReadDecoratedOf(isEnum: bool, flat: string, isArray: bool)
    requires |flat| > 0 && flat[0] != '#'
    requires !(|flat| >= 2 && flat[|flat| - 2..] == "[]")
    ensures ReadDecorated((if isEnum then "#" else "") + flat + (if isArray then "[]" else ""))
            == DecoratedParts(isEnum, flat, isArray)
  {
    var s1 := flat + (if isArray then "[]" else "");
    var s := (if isEnum then "#" else "") + flat + (if isArray then "[]" else "");
    if isEnum {
      assert s == "#" + s1;
      ReadEnumMark(s1);
    } else {
      assert s == s1;
      assert s1[0] == flat[0];
    }
    ReadArrayMark(flat, isArray);
  }

  lemma ReadEnumMark(s1: string)
    ensures ("#" + s1)[1..] == s1
  {
  }

  lemma ReadArrayMark(flat: string, isArray: bool)
    requires !(|flat| >= 2 && flat[|flat| - 2..] == "[]")
    ensures var s1 := flat + (if isArray then "[]" else "");
            && (|s1| >= 2 && s1[|s1| - 2..] == "[]") == isArray
            && (if isArray then s1[..|s1| - 2] else s1) == flat
  {
    if isArray {
      var s1 := flat + "[]";
      assert s1[|s1| - 2..] == "[]";
      assert s1[..|s1| - 2] == flat;
    }
  }

  /** The flat base starts with its name and, when that name is readable, can neither
      start with a mark nor end with `[]`. */
  lemma FlatBaseReadable(env: Env, t: Type)
    requires ReadableName(FlatName(env, t))
    ensures var f := FlatBase(env, t);
            && |f| > 0 && f[0] != '#' && f[0] != '*' && f[0] != '&' && f[0] != '>'
            && !(|f| >= 2 && f[|f| - 2..] == "[]")
  {
    var f := FlatBase(env, t);
    var name := FlatName(env, t);
    assert f[0] == f[..|name|][0];
    if TemplateArgsOf(env.originalType(t)).Some? {
      assert f[|f| - 1] == '>';
    } else {
      assert f == name;
    }
    assert |f| >= 2 ==> f[|f| - 2..][1] == f[|f| - 1];
  }

  /** A decorated base, read back: the enumeration and array marks of the type behind the
      aliases, and its flat base. */
  lemma DecoratedFlatBaseRoundTrip(env: Env, t: Type)
    requires ReadableName(FlatName(env, ResolveAliases(t)))
    ensures var u := ResolveAliases(t);
            ReadDecorated(DecoratedFlatBase(env, t)) == DecoratedParts(BaseOf(u).EnumBase?, FlatBase(env, u), IsArray(u))
  {
    var u := ResolveAliases(t);
    FlatBaseReadable(env, u);
    ReadDecoratedOf(BaseOf(u).EnumBase?, FlatBase(env, u), IsArray(u));
  }

  /** The markers of a parameter, read back from in front of any text that starts with
      none of `>`, `*` and `&`. */
  lemma MarkersRead(env: Env, p: Parameter, d: string)
    requires |d| > 0 && d[0] != '*' && d[0] != '&' && d[0] != '>'
    ensures var t := env.originalType(p.ptype);
            var k := PointerDegree(t);
            var r := ReadMarkers(Markers(env, p) + d);
            && r.rest == d
            && (BaseOf(t).Primitive? ==>
                  && !r.output && !r.leadAmp && !r.trailAmp
                  && r.stars == (if BaseOf(t).name == "char" && k > 0 then 1 else 0))
            && (!BaseOf(t).Primitive? ==>
                  && r.output == p.isOutput
                  && r.stars == (if p.isOutput then (if k >= 1 then k - 1 else 0) else k)
                  && (if r.leadAmp then 1 else 0) + (if r.trailAmp then 1 else 0)
                     == (if !p.isOutput && IsReference(t) then 1 else 0)
                        + (if env.needsExtraReferencing(t) then 1 else 0)
                  && (p.isOutput || r.stars > 0 ==>
                        && r.leadAmp == (!p.isOutput && IsReference(t))
                        && r.trailAmp == env.needsExtraReferencing(t)))
  {
    var t := env.originalType(p.ptype);
    var k := PointerDegree(t) as int;
    if !BaseOf(t).Primitive? {
      var lead := if p.isOutput then ">" else if IsReference(t) then "&" else "";
      var stars := Repeat('*', if p.isOutput then k - 1 else k);
      var extra := if env.needsExtraReferencing(t) then "&" else "";
      assert Markers(env, p) == lead + stars + extra;
      ReadMarkersOf(lead, stars, extra, d);
    } else if BaseOf(t).name == "char" && k > 0 {
      assert Markers(env, p) + d == "" + "*" + "" + d;
      ReadMarkersOf("", "*", "", d);
    } else {
      assert Markers(env, p) + d == "" + "" + "" + d;
      ReadMarkersOf("", "", "", d);
    }
  }

  /** The type string of a parameter, read back: the output mark, the star count, the
      number of `&` and the side of each `&` whenever a `>` or a star separates them, the
      enumeration and array marks, and the flat base of the type behind the aliases. */
  lemma ParamTypeStringRoundTrip(env: Env, p: Parameter)
    requires ReadableName(FlatName(env, ResolveAliases(env.originalType(p.ptype))))
    ensures var t := env.originalType(p.ptype);
            var k := PointerDegree(t);
            var u := ResolveAliases(t);
            var r := ReadTypeString(ParamTypeString(env, p));
            && r.1 == DecoratedParts(BaseOf(u).EnumBase?, FlatBase(env, u), IsArray(u))
            && (BaseOf(t).Primitive? ==>
                  && !r.0.output && !r.0.leadAmp && !r.0.trailAmp
                  && r.0.stars == (if BaseOf(t).name == "char" && k > 0 then 1 else 0))
            && (!BaseOf(t).Primitive? ==>
                  && r.0.output == p.isOutput
                  && r.0.stars == (if p.isOutput then (if k >= 1 then k - 1 else 0) else k)
                  && (if r.0.leadAmp then 1 else 0) + (if r.0.trailAmp then 1 else 0)
                     == (if !p.isOutput && IsReference(t) then 1 else 0)
                        + (if env.needsExtraReferencing(t) then 1 else 0)
                  && (p.isOutput || r.0.stars > 0 ==>
                        && r.0.leadAmp == (!p.isOutput && IsReference(t))
                        && r.0.trailAmp == env.needsExtraReferencing(t)))
  {
    var t := env.originalType(p.ptype);
    var u := ResolveAliases(t);
    var d := DecoratedFlatBase(env, t);
    FlatBaseReadable(env, u);
    DecoratedFlatBaseRoundTrip(env, t);
    assert |d| > 0 && d[0] != '*' && d[0] != '&' && d[0] != '>';
    MarkersRead(env, p, d);
    var m := ReadMarkers(Markers(env, p) + d);
    assert ParamTypeString(env, p) == Markers(env, p) + d;
    assert ReadTypeString(ParamTypeString(env, p)) == (m, ReadDecorated(d));
  }

  /** The flat base, read back: the clean name, and the template argument texts when the
      type has template arguments, provided the name has no `<` and every argument text
      is non-empty and comma-free. */
  lemma FlatBaseRoundTrip(env: Env, t: Type)
    requires forall j :: 0 <= j < |FlatName(env, t)| ==> FlatName(env, t)[j] != '<'
    requires TemplateArgsOf(env.originalType(t)).Some? ==>
               var texts := TemplateArgTexts(env, TemplateArgsOf(env.originalType(t)).value);
               ReadableArgs(texts) && forall i :: 0 <= i < |texts| ==> |texts[i]| > 0
    ensures ReadFlatBase(FlatBase(env, t))
            == (FlatName(env, t),
                match TemplateArgsOf(env.originalType(t))
                case None => None
                case Some(args) => Some(TemplateArgTexts(env, args)))
  {
    var name := FlatName(env, t);
    match TemplateArgsOf(env.originalType(t))
    case None =>
      assert IndexOf(name, '<').None?;
    case Some(args) =>
      ReadTemplatedName(name, TemplateArgTexts(env, args));
  }

  /** Reading `name< a1,…,an >` back. */
  lemma ReadTemplatedName(name: string, texts: seq<string>)
    requires forall j :: 0 <= j < |name| ==> name[j] != '<'
    requires ReadableArgs(texts) && forall i :: 0 <= i < |texts| ==> |texts[i]| > 0
    ensures ReadFlatBase(name + "< " + Join(texts, ",") + " >") == (name, Some(texts))
  {
    var inner := Join(texts, ",");
    ReadTemplatedShape(name, inner);
    if |texts| == 0 {
      assert inner == "";
    } else {
      assert |inner| >= |texts[0]| > 0;
      SplitJoin(texts, ',');
    }
  }

  /** The name before the first `<`, and the text between `< ` and ` >`. */
  lemma ReadTemplatedShape(name: string, inner: string)
    requires forall j :: 0 <= j < |name| ==> name[j] != '<'
    ensures ReadFlatBase(name + "< " + inner + " >")
            == (name, Some(if inner == "" then [] else Split(inner, ',')))
  {
    var f := name + "< " + inner + " >";
    var i := |name|;
    assert f == name + ['<'] + (" " + inner + " >");
    FirstIndexAfter(name, '<', " " + inner + " >");
    assert f[i..i + 2] == "< ";
    assert f[|f| - 2..] == " >";
    assert f[i + 2..|f| - 2] == inner;
    assert f[..i] == name;
  }

  // ---------------------------------------------------------------------------
  // generateRegistrationPrototype(Routine, n, with)

  /** A `RegData` array with its name. */
  datatype ProtoArray = ProtoArray(name: string, lines: seq<RegLine>)

  /** One `{ name, type }` line per parameter among the first `n`, then the sentinel. */
  function ProtoLines(env: Env, params: seq<Parameter>, n: nat): (lines: seq<RegLine>)
    ensures |lines| == Min(n, |params|) + 1
    ensures lines[|lines| - 1] == EndOfList
    ensures forall i :: 0 <= i < |lines| - 1 ==>
              lines[i] == Entry(params[i].name, ParamTypeString(env, params[i]), NULL_SYMBOL, NULL_SYMBOL)
  {
    var m := Min(n, |params|);
    seq(m, i requires 0 <= i < m => Entry(params[i].name, ParamTypeString(env, params[i]), NULL_SYMBOL, NULL_SYMBOL))
      + [EndOfList]
  }

  /** `generateRegistrationPrototype(routine, n, with)`. */
  function RoutinePrototype(env: Env, g: GenState, r: Routine, n: nat, with: bool): (res: (ProtoArray, GenState))
    ensures Later(g, res.1) && res.1 == g.(uids := res.1.uids)
    ensures r.id in res.1.uids.ids
    ensures res.0.name == ProtoName(res.1.uids.ids[r.id], with, n)
    ensures res.0.lines == ProtoLines(env, r.params, n)
  {
    var (u, g1) := Number(g, r.id);
    (ProtoArray(ProtoName(u, with, n), ProtoLines(env, r.params, n)), g1)
  }

  // ---------------------------------------------------------------------------
  // generateFlatWrapper(Routine, n, with)

  /** The flat wrapper of a routine for one argument count: its name, the declaration
      written before the parameter list, the `self` parameter if any, the formatted
      parameters, the call it makes and the body statement wrapping that call. */
  datatype FlatWrapper = FlatWrapper(
    name: string,
    declaration: string,
    selfParam: Option<string>,
    params: string,
    invocation: string,
    body: string)

  /** The class the wrapper is invoked on: only for the instance form, and only when the
      routine sits inside a class. */
  function ThisClass(r: Routine, with: bool): Option<string>
  {
    if with && r.container.InAggregate? then Some(r.container.fullName) else None
  }

  function ConstPrefix(r: Routine): string { if r.isConst then "const " else "" }

  /** The `*self` parameter: for an instance wrapper of a non-constructor, and for a static
      call wrapper (whose container must then exist). */
  function SelfParameter(r: Routine, cls: Option<string>): (res: Result<Option<string>>)
    ensures res.Err? <==> !(cls.Some? && !r.IsConstructor()) && r.staticCallWrapper && r.container.NoContainer?
    ensures res.Ok? ==> (res.value.Some? <==> (cls.Some? && !r.IsConstructor()) || r.staticCallWrapper)
  {
    if cls.Some? && !r.IsConstructor() then Ok(Some(ConstPrefix(r) + cls.value + " *self"))
    else if r.staticCallWrapper then
      if r.container.NoContainer? then Err(NullReference("container of " + r.fullName))
      else Ok(Some(ConstPrefix(r) + r.container.fullName + " *self"))
    else Ok(None)
  }

  /** What the wrapper calls, before the argument list. */
  function Callee(env: Env, r: Routine, cls: Option<string>): Result<string>
  {
    if r.IsConstructor() then
      if cls.None? then Err(NullReference("class of constructor " + r.fullName))
      else Ok("return new " + cls.value)
    else if cls.Some? || r.staticCallWrapper then
      if r.kind.ConversionOperator? then
        if r.returnType.None? then Err(NullReference("type of conversion " + r.fullName))
        else Ok("CONVOP(" + env.spell(r.returnType.value) + ",self)")
      else if r.name == "operator==" || r.name == "operator!=" then
        Ok("*self " + r.name[|"operator"|..])
      else
        Ok("self->" + (if r.staticCallWrapper then r.fullName else r.name))
    else Ok(r.fullName)
  }

  /** The call expression: the callee applied to the arguments, except that a conversion
      operator is applied by `CONVOP` alone. */
  function Invocation(env: Env, r: Routine, cls: Option<string>, args: string): (res: Result<string>)
    ensures r.IsConstructor() ==> (res.Err? <==> cls.None?)
    ensures r.IsConstructor() && cls.Some? ==> res.value == "return new " + cls.value + "(" + args + ")"
    ensures !r.IsConstructor() && cls.None? && !r.staticCallWrapper ==>
              res == Ok(if r.kind.ConversionOperator? then r.fullName else r.fullName + "(" + args + ")")
    ensures !r.IsConstructor() && (cls.Some? || r.staticCallWrapper) && (r.name == "operator==" || r.name == "operator!=") && !r.kind.ConversionOperator?
            ==> res == Ok("*self " + r.name[8..] + "(" + args + ")")
    ensures !r.IsConstructor() && (cls.Some? || r.staticCallWrapper) && r.kind.ConversionOperator? ==>
              && (res.Err? <==> r.returnType.None?)
              && (res.Ok? ==> res.value == "CONVOP(" + env.spell(r.returnType.value) + ",self)")
    ensures !r.IsConstructor() && r.staticCallWrapper && !r.kind.ConversionOperator?
            && r.name != "operator==" && r.name != "operator!="
            ==> res == Ok("self->" + r.fullName + "(" + args + ")")
    ensures !r.IsConstructor() && cls.Some? && !r.staticCallWrapper && !r.kind.ConversionOperator?
            && r.name != "operator==" && r.name != "operator!="
            ==> res == Ok("self->" + r.name + "(" + args + ")")
  {
    var callee :- Callee(env, r, cls);
    Ok(if r.kind.ConversionOperator? then callee else callee + "(" + args + ")")
  }

  /** A call passes its argument list verbatim: two calls of the same routine on the same
      class are the same text exactly when their arguments are. */
  lemma InvocationArgumentsInjective(env: Env, r: Routine, cls: Option<string>, a: string, b: string)
    requires !r.kind.ConversionOperator? && Invocation(env, r, cls, a).Ok?
    ensures Invocation(env, r, cls, b).Ok?
    ensures Invocation(env, r, cls, a) == Invocation(env, r, cls, b) <==> a == b
  {
    var head := Callee(env, r, cls).value + "(";
    var x := Invocation(env, r, cls, a).value;
    var y := Invocation(env, r, cls, b).value;
    assert x == head + a + ")" && y == head + b + ")";
    if x == y {
      assert |a| == |b|;
      assert forall i :: 0 <= i < |a| ==> a[i] == x[|head| + i];
      assert forall i :: 0 <= i < |b| ==> b[i] == y[|head| + i];
    }
  }

  /** `generateFlatWrapper(routine, n, with)`. A constructor outside a class (or wrapped in
      static form) has no class to instantiate: `generateFlatWrapper` dereferences `null`
      there. */
  function FlatRoutineWrapper(env: Env, g: GenState, r: Routine, n: nat, with: bool): (res: Result<(FlatWrapper, GenState)>)
    ensures r.IsConstructor() && ThisClass(r, with).None? ==> res.Err?
    ensures env.deduceParameters(r.params, n).Err? || env.deduceReturn(r).Err? ==> res.Err?
    ensures res.Ok? ==>
              && Later(g, res.value.1) && res.value.1 == g.(uids := res.value.1.uids)
              && r.id in res.value.1.uids.ids
              && res.value.0.name == WrapperName(res.value.1.uids.ids[r.id], with, n)
              && (res.value.0.selfParam.Some? <==> (ThisClass(r, with).Some? && !r.IsConstructor()) || r.staticCallWrapper)
              && res.value.0.params == env.formatParameters(env.deduceParameters(r.params, n).value)
              && res.value.0.body == env.deduceReturn(r).value.body(res.value.0.invocation)
              && Invocation(env, r, ThisClass(r, with), env.formatArguments(env.deduceParameters(r.params, n).value))
                 == Ok(res.value.0.invocation)
    ensures env.deduceParameters(r.params, n).Ok?
            && Invocation(env, r, ThisClass(r, with), env.formatArguments(env.deduceParameters(r.params, n).value)).Err?
            ==> res.Err?
    ensures res.Ok? && r.IsConstructor() ==>
              && res.value.0.declaration == ThisClass(r, with).value + "* __CDECL " + res.value.0.name
              && res.value.0.invocation == "return new " + ThisClass(r, with).value + "("
                   + env.formatArguments(env.deduceParameters(r.params, n).value) + ")"
  {
    var cls := ThisClass(r, with);
    var (u, g1) := Number(g, r.id);
    var name := WrapperName(u, with, n);
    if r.IsConstructor() && cls.None? then Err(NullReference("class of constructor " + r.fullName))
    else
      var decl := if r.IsConstructor() then cls.value + "* __CDECL " + name
                  else env.formatReturnDeclaration(r.returnType, name);
      var self :- SelfParameter(r, cls);
      var paramf :- env.deduceParameters(r.params, n);
      var retf :- env.deduceReturn(r);
      var inv :- Invocation(env, r, cls, env.formatArguments(paramf));
      Ok((FlatWrapper(name, decl, self, env.formatParameters(paramf), inv, retf.body(inv)), g1))
  }

  // ---------------------------------------------------------------------------
  // Overload expansion (the argument-count loop of generateRoutineWrappers)

  /** The output for one argument count: the wrapper (absent for a routine the
      interceptor implements in the front end) and the prototype. */
  datatype Overload = Overload(n: nat, wrapper: Option<FlatWrapper>, proto: ProtoArray)

  /** The overload for `k` arguments carries the names built from routine number `u`. */
  ghost predicate OverloadNamed(o: Overload, u: nat, with: bool, k: nat, wrapped: bool)
  {
    && o.n == k
    && o.proto.name == ProtoName(u, with, k)
    && (o.wrapper.Some? <==> wrapped)
    && (o.wrapper.Some? ==> o.wrapper.value.name == WrapperName(u, with, k))
  }

  function Remaining(r: Routine, n: nat): nat
  {
    if n <= r.maxArgs then r.maxArgs - n + 1 else 0
  }

  /** The output for `n` arguments: a wrapper unless this is the class loop (`with`) and
      the routine is an interceptor method, then the prototype. The loop over global
      functions writes a wrapper for every count without asking. */
  function OverloadAt(env: Env, g: GenState, r: Routine, with: bool, n: nat): (res: Result<(Overload, GenState)>)
    ensures res.Ok? ==>
              && Later(g, res.value.1) && res.value.1 == g.(uids := res.value.1.uids)
              && r.id in res.value.1.uids.ids
              && OverloadNamed(res.value.0, res.value.1.uids.ids[r.id], with, n, !(with && r.id in g.interceptorMethods))
  {
    var wg :- if with && r.id in g.interceptorMethods then Ok((None, g))
              else
                var fw :- FlatRoutineWrapper(env, g, r, n, with);
                Ok((Some(fw.0), fw.1));
    var pg := RoutinePrototype(env, wg.1, r, n, with);
    if wg.0.Some? then
      NumberStable(wg.1, pg.1, r.id);
      Ok((Overload(n, wg.0, pg.0), pg.1))
    else
      Ok((Overload(n, wg.0, pg.0), pg.1))
  }

  /** The overloads for `n..maxArgs` arguments. */
  function ExpandFrom(env: Env, g: GenState, r: Routine, with: bool, n: nat): (res: Result<(seq<Overload>, GenState)>)
    ensures res.Ok? ==> |res.value.0| == Remaining(r, n)
    decreases Remaining(r, n)
  {
    if n > r.maxArgs then Ok(([], g))
    else
      var first :- OverloadAt(env, g, r, with, n);
      var rest :- ExpandFrom(env, first.1, r, with, n + 1);
      Ok(([first.0] + rest.0, rest.1))
  }

  /** Every overload of `os` is named after routine number `u`, with argument counts
      counting up from `n`. */
  ghost predicate AllNamed(os: seq<Overload>, u: nat, with: bool, n: nat, wrapped: bool)
  {
    forall i :: 0 <= i < |os| ==> OverloadNamed(os[i], u, with, n + i, wrapped)
  }

  lemma {:induction false} AllNamedCons(o: Overload, rest: seq<Overload>, u: nat, with: bool, n: nat, wrapped: bool)
    requires OverloadNamed(o, u, with, n, wrapped) && AllNamed(rest, u, with, n + 1, wrapped)
    ensures AllNamed([o] + rest, u, with, n, wrapped)
  {
    forall i | 0 <= i < |[o] + rest|
      ensures OverloadNamed(([o] + rest)[i], u, with, n + i, wrapped)
    {
      if i > 0 {
        assert ([o] + rest)[i] == rest[i - 1];
      }
    }
  }

  /** One step of ExpandFrom: the overload for `n`, then the rest from the state it left. */
  lemma ExpandFromCons(env: Env, g: GenState, r: Routine, with: bool, n: nat) returns (g1: GenState)
    requires ExpandFrom(env, g, r, with, n).Ok? && n <= r.maxArgs
    ensures OverloadAt(env, g, r, with, n).Ok? && g1 == OverloadAt(env, g, r, with, n).value.1
    ensures ExpandFrom(env, g1, r, with, n + 1).Ok?
    ensures ExpandFrom(env, g, r, with, n).value
            == ([OverloadAt(env, g, r, with, n).value.0] + ExpandFrom(env, g1, r, with, n + 1).value.0,
                ExpandFrom(env, g1, r, with, n + 1).value.1)
  {
    g1 := OverloadAt(env, g, r, with, n).value.1;
  }

  /** Expanding changes the state only in its numbering, and only by extension. */
  lemma {:induction false} ExpandFromState(env: Env, g: GenState, r: Routine, with: bool, n: nat)
    requires ExpandFrom(env, g, r, with, n).Ok?
    ensures Later(g, ExpandFrom(env, g, r, with, n).value.1)
    ensures ExpandFrom(env, g, r, with, n).value.1 == g.(uids := ExpandFrom(env, g, r, with, n).value.1.uids)
    ensures n <= r.maxArgs ==> r.id in ExpandFrom(env, g, r, with, n).value.1.uids.ids
    decreases Remaining(r, n)
  {
    if n <= r.maxArgs {
      var g1 := ExpandFromCons(env, g, r, with, n);
      ExpandFromState(env, g1, r, with, n + 1);
      LaterTransitive(g, g1, ExpandFrom(env, g1, r, with, n + 1).value.1);
    } else {
      LaterReflexive(g);
    }
  }

  /** Every overload produced from `n` on is named after the routine's number in the final
      state. */
  lemma {:induction false} ExpandFromNamed(env: Env, g: GenState, r: Routine, with: bool, n: nat)
    requires ExpandFrom(env, g, r, with, n).Ok? && n <= r.maxArgs
    ensures r.id in ExpandFrom(env, g, r, with, n).value.1.uids.ids
    ensures AllNamed(ExpandFrom(env, g, r, with, n).value.0,
                     ExpandFrom(env, g, r, with, n).value.1.uids.ids[r.id], with, n, !(with && r.id in g.interceptorMethods))
    decreases Remaining(r, n)
  {
    var g1 := ExpandFromCons(env, g, r, with, n);
    var first := OverloadAt(env, g, r, with, n).value;
    var rest := ExpandFrom(env, g1, r, with, n + 1).value;
    ExpandFromState(env, g1, r, with, n + 1);
    var h := rest.1;
    var u := h.uids.ids[r.id];
    assert g1.uids.ids[r.id] == u;
    assert g1.interceptorMethods == g.interceptorMethods;
    if n + 1 <= r.maxArgs {
      ExpandFromNamed(env, g1, r, with, n + 1);
    }
    AllNamedCons(first.0, rest.0, u, with, n, !(with && r.id in g.interceptorMethods));
  }

  /** The loop of `generateRoutineWrappers` over the argument counts of one routine: one
      prototype per count in `minArgs..maxArgs`, each with a wrapper unless the class loop
      meets an interceptor method, all named after the same routine number. */
  function ExpandRoutine(env: Env, g: GenState, r: Routine, with: bool): (res: Result<(seq<Overload>, GenState)>)
    ensures res.Ok? ==> |res.value.0| == Width(r)
    ensures res.Ok? ==> Later(g, res.value.1) && res.value.1 == g.(uids := res.value.1.uids)
    ensures res.Ok? && Width(r) > 0 ==>
              r.id in res.value.1.uids.ids
              && AllNamed(res.value.0, res.value.1.uids.ids[r.id], with, r.minArgs, !(with && r.id in g.interceptorMethods))
  {
    var res := ExpandFrom(env, g, r, with, r.minArgs);
    if res.Ok? then
      ExpandFromState(env, g, r, with, r.minArgs);
      if r.minArgs <= r.maxArgs then ExpandFromNamed(env, g, r, with, r.minArgs); res else res
    else res
  }

  // ---------------------------------------------------------------------------
  // generateFlatWrapper(Field, with, forInterceptor)

  datatype Setter = Setter(name: string, params: string, body: string)

  /** The accessors of a variable: the getter's name, declaration and body, the setter when
      the variable can be assigned, and the setter's prototype (not written for the
      accessors inside an interceptor class). */
  datatype FieldWrapper = FieldWrapper(
    getter: string,
    getterDecl: string,
    getterBody: string,
    setter: Option<Setter>,
    sink: Option<ProtoArray>)

  /** The base named in a setter prototype: an alias base is replaced by the base of the
      original type. */
  function SinkBase(env: Env, t: Type): Base
  {
    if BaseOf(t).AliasBase? then BaseOf(env.originalType(t)) else BaseOf(t)
  }

  /** `generateFlatWrapper(field, with, forInterceptor)`. The accessors a class writes for
      a field an interceptor re-exposes (`wrapped`) delegate to the interceptor's own
      accessor methods of the same name. */
  function FieldAccessors(env: Env, g: GenState, f: Field, with: bool, forInterceptor: bool): (res: Result<(FieldWrapper, GenState)>)
    ensures env.deduceVariable(f.ftype).Err? ==> res.Err?
    ensures res.Ok? ==>
              var (w, h) := res.value;
              && Later(g, h) && h == g.(uids := h.uids)
              && f.id in h.uids.ids
              && w.getter == GetterName(h.uids.ids[f.id], with)
              && (w.setter.Some? <==> f.hasSetter)
              && (w.setter.Some? ==> w.setter.value.name == SetterName(h.uids.ids[f.id], with))
              && (w.sink.Some? <==> f.hasSetter && !forInterceptor)
              && (w.sink.Some? ==> w.sink.value.name == SinkProtoName(h.uids.ids[f.id], with)
                                   && w.sink.value.lines == [Entry("newval", env.baseFullName(SinkBase(env, f.ftype)), NULL_SYMBOL, NULL_SYMBOL), EndOfList])
    ensures res.Ok? && f.wrapped && !forInterceptor ==>
              var w := res.value.0;
              && w.getterBody == "return self->" + w.getter + "()"
              && (w.setter.Some? ==> w.setter.value.body == "self->" + w.setter.value.name + "(newval)")
  {
    var (u, g1) := Number(g, f.id);
    var getter := GetterName(u, with);
    var delegating := f.wrapped && !forInterceptor;
    var thisArg := if forInterceptor then ""
                   else if f.container.InAggregate? then f.container.fullName + " *self" else "";
    var retf :- env.deduceVariable(f.ftype);
    var decl := env.formatVariableDeclaration(f.ftype, getter, delegating) + "(" + thisArg + ")";
    var body := if delegating then "return self->" + getter + "()"
                else retf.body(env.formatFieldAccess(f, !forInterceptor));
    if !f.hasSetter then Ok((FieldWrapper(getter, decl, body, None, None), g1))
    else
      var setter := SetterName(u, with);
      var paramf :- env.deduceParameter(f.ftype);
      var params := (if forInterceptor then "" else thisArg + ", ") + env.declare(paramf.protoType, "newval");
      var sbody := if delegating then "self->" + setter + "(newval)"
                   else env.formatFieldAccess(f, !forInterceptor) + " = " + paramf.body("newval");
      var sink := if forInterceptor then None
                  else Some(ProtoArray(SinkProtoName(u, with),
                                       [Entry("newval", env.baseFullName(SinkBase(env, f.ftype)), NULL_SYMBOL, NULL_SYMBOL), EndOfList]));
      Ok((FieldWrapper(getter, decl, body, Some(Setter(setter, params, sbody)), sink), g1))
  }

  /** An interceptor's own accessor methods for a re-exposed field and the accessors the
      interceptor class gets as a wrapped class agree on the names: the outer getter and
      setter call exactly the inner ones, whatever was numbered in between. */
  lemma WrappedFieldDelegation(env: Env, g: GenState, h: GenState, f: Field)
    requires f.wrapped
    requires FieldAccessors(env, g, f, true, true).Ok?
    requires Later(FieldAccessors(env, g, f, true, true).value.1, h)
    requires FieldAccessors(env, h, f, true, false).Ok?
    ensures var inner := FieldAccessors(env, g, f, true, true).value.0;
            var outer := FieldAccessors(env, h, f, true, false).value.0;
            && outer.getterBody == "return self->" + inner.getter + "()"
            && (outer.setter.Some? <==> inner.setter.Some?)
            && (outer.setter.Some? ==> outer.setter.value.body == "self->" + inner.setter.value.name + "(newval)")
  {
    var g1 := FieldAccessors(env, g, f, true, true).value.1;
    NumberStable(g1, h, f.id);
  }

  // ---------------------------------------------------------------------------
  // generateUpDownCastFlatWrappers

  /** `upcast_<d>_to_<b>`: converts a pointer to the class into a pointer to a base. */
  datatype Upcast = Upcast(name: string, baseName: string, derivedName: string)

  /** `downcast_<b>_to_<d>` with its one-parameter prototype: a `dynamic_cast` from a
      polymorphic base back to the class. */
  datatype Downcast = Downcast(name: string, baseName: string, derivedName: string)

  function PublicBases(bases: seq<Inheritance>): (r: seq<Inheritance>)
    ensures |r| <= |bases|
    ensures forall c :: c in r ==> c in bases && c.vis == Public
  {
    if |bases| == 0 then []
    else (if bases[0].vis == Public then [bases[0]] else []) + PublicBases(bases[1..])
  }

  function PolymorphicPublicBases(bases: seq<Inheritance>): (r: seq<Inheritance>)
    ensures forall c :: c in r ==> c in bases && c.vis == Public && c.basePolymorphic
  {
    if |bases| == 0 then []
    else (if bases[0].vis == Public && bases[0].basePolymorphic then [bases[0]] else [])
         + PolymorphicPublicBases(bases[1..])
  }

  /** How a base is spelled: the template expression for a template base, its clean
      full name otherwise. */
  function BaseDisplayName(c: Inheritance): string
  {
    if c.baseTemplated then c.templateExpr else c.baseCleanName
  }

  /** The `entry[]` line registering a downcast. */
  function DowncasterLine(d: Downcast): RegLine
  {
    Entry("dynamic_cast< " + d.derivedName + " >", "&" + d.derivedName, d.name + "_proto", SymbolOf(d.name))
  }

  function DowncasterLines(ds: seq<Downcast>): (r: seq<RegLine>)
    ensures |r| == |ds|
    ensures forall i :: 0 <= i < |ds| ==> r[i] == DowncasterLine(ds[i])
  {
    seq(|ds|, i requires 0 <= i < |ds| => DowncasterLine(ds[i]))
  }

  ghost predicate UpcastNamed(h: GenState, scope: ObjId, derived: string, c: Inheritance, up: Upcast)
  {
    scope in h.uids.ids && c.baseScope in h.uids.ids
    && up == Upcast(UpcastName(h.uids.ids[scope], h.uids.ids[c.baseScope]), BaseDisplayName(c), derived)
  }

  ghost predicate DowncastNamed(h: GenState, scope: ObjId, derived: string, c: Inheritance, down: Downcast)
  {
    scope in h.uids.ids && c.baseScope in h.uids.ids
    && down == Downcast(DowncastName(h.uids.ids[c.baseScope], h.uids.ids[scope]), BaseDisplayName(c), derived)
  }

  /** Upcast `i` belongs to base `cs[i]`. */
  ghost predicate UpcastsNamed(h: GenState, scope: ObjId, derived: string, cs: seq<Inheritance>, ups: seq<Upcast>)
  {
    |ups| == |cs| && forall i :: 0 <= i < |ups| ==> UpcastNamed(h, scope, derived, cs[i], ups[i])
  }

  /** Downcast `i` belongs to base `cs[i]`. */
  ghost predicate DowncastsNamed(h: GenState, scope: ObjId, derived: string, cs: seq<Inheritance>, downs: seq<Downcast>)
  {
    |downs| == |cs| && forall i :: 0 <= i < |downs| ==> DowncastNamed(h, scope, derived, cs[i], downs[i])
  }

  lemma {:induction false} UpcastsNamedAppend(h: GenState, scope: ObjId, derived: string,
                                              cs: seq<Inheritance>, ups: seq<Upcast>,
                                              cs': seq<Inheritance>, ups': seq<Upcast>)
    requires UpcastsNamed(h, scope, derived, cs, ups) && UpcastsNamed(h, scope, derived, cs', ups')
    ensures UpcastsNamed(h, scope, derived, cs + cs', ups + ups')
  {
    forall i | 0 <= i < |ups + ups'|
      ensures UpcastNamed(h, scope, derived, (cs + cs')[i], (ups + ups')[i])
    {
      if i >= |ups| {
        assert (ups + ups')[i] == ups'[i - |ups|] && (cs + cs')[i] == cs'[i - |cs|];
      } else {
        assert (ups + ups')[i] == ups[i] && (cs + cs')[i] == cs[i];
      }
    }
  }

  lemma {:induction false} DowncastsNamedAppend(h: GenState, scope: ObjId, derived: string,
                                                cs: seq<Inheritance>, downs: seq<Downcast>,
                                                cs': seq<Inheritance>, downs': seq<Downcast>)
    requires DowncastsNamed(h, scope, derived, cs, downs) && DowncastsNamed(h, scope, derived, cs', downs')
    ensures DowncastsNamed(h, scope, derived, cs + cs', downs + downs')
  {
    forall i | 0 <= i < |downs + downs'|
      ensures DowncastNamed(h, scope, derived, (cs + cs')[i], (downs + downs')[i])
    {
      if i >= |downs| {
        assert (downs + downs')[i] == downs'[i - |downs|] && (cs + cs')[i] == cs'[i - |cs|];
      } else {
        assert (downs + downs')[i] == downs[i] && (cs + cs')[i] == cs[i];
      }
    }
  }

  lemma UpcastsNamedStable(g: GenState, h: GenState, scope: ObjId, derived: string, cs: seq<Inheritance>, ups: seq<Upcast>)
    requires UpcastsNamed(g, scope, derived, cs, ups) && Later(g, h)
    ensures UpcastsNamed(h, scope, derived, cs, ups)
  {
    forall i | 0 <= i < |ups| ensures UpcastNamed(h, scope, derived, cs[i], ups[i]) {
      UpcastStable(g, h, scope, derived, cs[i], ups[i]);
    }
  }

  lemma DowncastsNamedStable(g: GenState, h: GenState, scope: ObjId, derived: string, cs: seq<Inheritance>, downs: seq<Downcast>)
    requires DowncastsNamed(g, scope, derived, cs, downs) && Later(g, h)
    ensures DowncastsNamed(h, scope, derived, cs, downs)
  {
    forall i | 0 <= i < |downs| ensures DowncastNamed(h, scope, derived, cs[i], downs[i]) {
      DowncastStable(g, h, scope, derived, cs[i], downs[i]);
    }
  }

  /** The casts for one public base. */
  function CastsFor(g: GenState, scope: ObjId, derived: string, c: Inheritance): (res: (Upcast, seq<Downcast>, GenState))
    requires c.vis == Public
    ensures Later(g, res.2)
    ensures res.2 == g.(uids := res.2.uids, downCasters := g.downCasters + DowncasterLines(res.1))
    ensures UpcastNamed(res.2, scope, derived, c, res.0)
    ensures |res.1| == (if c.basePolymorphic then 1 else 0)
    ensures |res.1| == 1 ==> DowncastNamed(res.2, scope, derived, c, res.1[0])
  {
    var (d, g1) := Number(g, scope);
    var (b, g2) := Number(g1, c.baseScope);
    var downs: seq<Downcast> := if c.basePolymorphic then [Downcast(DowncastName(b, d), BaseDisplayName(c), derived)] else [];
    (Upcast(UpcastName(d, b), BaseDisplayName(c), derived), downs,
     g2.(downCasters := g2.downCasters + DowncasterLines(downs)))
  }

  /** `generateUpDownCastFlatWrappers(subject)` over the inheritance list: an upcast for
      every public base, a downcast (recorded for `entry[]`) only for a public base that
      is polymorphic. Besides numbering, the state changes only by the downcaster lines
      appended, in base order. */
  function Casts(g: GenState, scope: ObjId, derived: string, bases: seq<Inheritance>)
    : (res: (seq<Upcast>, seq<Downcast>, GenState))
    ensures |res.0| == |PublicBases(bases)|
    ensures res.2 == g.(uids := res.2.uids, downCasters := g.downCasters + DowncasterLines(res.1))
    decreases |bases|
  {
    if |bases| == 0 then
      assert g.downCasters + DowncasterLines([]) == g.downCasters;
      ([], [], g)
    else if bases[0].vis != Public then Casts(g, scope, derived, bases[1..])
    else
      var first := CastsFor(g, scope, derived, bases[0]);
      var rest := Casts(first.2, scope, derived, bases[1..]);
      DowncasterLinesAppend(first.1, rest.1);
      assert rest.2.downCasters == g.downCasters + DowncasterLines(first.1 + rest.1);
      ([first.0] + rest.0, first.1 + rest.1, rest.2)
  }

  lemma DowncasterLinesAppend(a: seq<Downcast>, b: seq<Downcast>)
    ensures DowncasterLines(a + b) == DowncasterLines(a) + DowncasterLines(b)
  {
  }

  /** The casts only number scopes: the state that follows is a later one. */
  lemma {:induction false} CastsLater(g: GenState, scope: ObjId, derived: string, bases: seq<Inheritance>)
    ensures Later(g, Casts(g, scope, derived, bases).2)
    decreases |bases|
  {
    if |bases| == 0 {
      LaterReflexive(g);
    } else if bases[0].vis != Public {
      CastsLater(g, scope, derived, bases[1..]);
    } else {
      var first := CastsFor(g, scope, derived, bases[0]);
      CastsLater(first.2, scope, derived, bases[1..]);
      LaterTransitive(g, first.2, Casts(first.2, scope, derived, bases[1..]).2);
    }
  }

  /** Upcast `i` is named after the class and public base `i`, numbered as in the final
      state. */
  lemma {:induction false} CastsUpNamed(g: GenState, scope: ObjId, derived: string, bases: seq<Inheritance>)
    ensures var res := Casts(g, scope, derived, bases);
            UpcastsNamed(res.2, scope, derived, PublicBases(bases), res.0)
    decreases |bases|
  {
    if |bases| == 0 {
    } else if bases[0].vis != Public {
      CastsUpNamed(g, scope, derived, bases[1..]);
    } else {
      var c := bases[0];
      var first := CastsFor(g, scope, derived, c);
      var rest := Casts(first.2, scope, derived, bases[1..]);
      CastsUpNamed(first.2, scope, derived, bases[1..]);
      CastsLater(first.2, scope, derived, bases[1..]);
      UpcastStable(first.2, rest.2, scope, derived, c, first.0);
      UpcastsNamedAppend(rest.2, scope, derived, [c], [first.0], PublicBases(bases[1..]), rest.0);
    }
  }

  /** Downcast `i` is named after polymorphic public base `i` and the class, numbered as
      in the final state. */
  lemma {:induction false} CastsDownNamed(g: GenState, scope: ObjId, derived: string, bases: seq<Inheritance>)
    ensures var res := Casts(g, scope, derived, bases);
            DowncastsNamed(res.2, scope, derived, PolymorphicPublicBases(bases), res.1)
    decreases |bases|
  {
    if |bases| == 0 {
    } else if bases[0].vis != Public {
      CastsDownNamed(g, scope, derived, bases[1..]);
    } else {
      var c := bases[0];
      var first := CastsFor(g, scope, derived, c);
      var rest := Casts(first.2, scope, derived, bases[1..]);
      CastsDownNamed(first.2, scope, derived, bases[1..]);
      CastsLater(first.2, scope, derived, bases[1..]);
      var pc := if c.basePolymorphic then [c] else [];
      if |first.1| == 1 {
        DowncastStable(first.2, rest.2, scope, derived, c, first.1[0]);
      }
      assert DowncastsNamed(rest.2, scope, derived, pc, first.1);
      DowncastsNamedAppend(rest.2, scope, derived, pc, first.1, PolymorphicPublicBases(bases[1..]), rest.1);
    }
  }

  lemma UpcastStable(g: GenState, h: GenState, scope: ObjId, derived: string, c: Inheritance, up: Upcast)
    requires UpcastNamed(g, scope, derived, c, up) && Later(g, h)
    ensures UpcastNamed(h, scope, derived, c, up)
  {
  }

  lemma DowncastStable(g: GenState, h: GenState, scope: ObjId, derived: string, c: Inheritance, down: Downcast)
    requires DowncastNamed(g, scope, derived, c, down) && Later(g, h)
    ensures DowncastNamed(h, scope, derived, c, down)
  {
  }
}
