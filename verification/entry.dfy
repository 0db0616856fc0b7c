/** `generateEntry`: one scope table per available class, then the top-level `entry[]`
    table: enumerated types, declared flat typedefs, classes in sorted order, global
    functions, the static entries accumulated in `m_entry`, global data, the downcasters
    accumulated in `m_downCasters`, and the sentinel. */
module EntryTable {
  import opened Support
  import opened Model
  import opened State
  import opened Names
  import opened Wrappers
  import opened Registration

  /** The inputs of `generateEntry`: the classes in the order they were collected, the
      same classes in the order `topologicallySortSubjects` gives them (not part of this
      model), the enumerated types, the typedefs, the global functions and the global
      data members. */
  datatype EntryRequest = EntryRequest(
    subjects: seq<Aggregate>,
    sorted: seq<Aggregate>,
    enums: seq<EnumType>,
    typedefs: seq<Typedef>,
    globalFuncs: seq<Routine>,
    globalData: seq<Field>)

  /** The classes `Filters.isAvailable` keeps, in order. */
  function AvailableClasses(cs: seq<Aggregate>): seq<Aggregate>
  {
    if |cs| == 0 then []
    else (if cs[0].traits.available then [cs[0]] else []) + AvailableClasses(cs[1..])
  }

  lemma {:induction false} AvailableClassesMembers(cs: seq<Aggregate>)
    ensures forall a :: a in AvailableClasses(cs) <==> a in cs && a.traits.available
  {
    if |cs| > 0 {
      AvailableClassesMembers(cs[1..]);
      assert forall a :: a in cs <==> a == cs[0] || a in cs[1..];
    }
  }

  // ---------------------------------------------------------------------------
  // The scope tables

  /** The scope tables of the given classes, one after the other, each written from the
      state the previous one left. */
  function ScopeTables(env: Env, g: GenState, cs: seq<Aggregate>): (res: Result<(seq<ScopeTable>, GenState)>)
    ensures res.Ok? ==> |res.value.0| == |cs|
    ensures res.Ok? ==> Later(g, res.value.1) && res.value.1 == g.(uids := res.value.1.uids)
    decreases |cs|
  {
    if |cs| == 0 then
      LaterReflexive(g);
      Ok(([], g))
    else
      var first := ScopeTableOf(env, g, RequestFor(cs[0]));
      if first.Err? then Err(first.failure)
      else
        var rest := ScopeTables(env, first.value.1, cs[1..]);
        if rest.Err? then Err(rest.failure)
        else
          LaterTransitive(g, first.value.1, rest.value.1);
          Ok(([first.value.0] + rest.value.0, rest.value.1))
  }

  /** One step of ScopeTables: the first table, then the tables of the rest from the
      state the first one left. */
  lemma ScopeTablesCons(env: Env, g: GenState, cs: seq<Aggregate>) returns (h: GenState)
    requires ScopeTables(env, g, cs).Ok? && |cs| > 0
    ensures ScopeTableOf(env, g, RequestFor(cs[0])).Ok?
    ensures h == ScopeTableOf(env, g, RequestFor(cs[0])).value.1
    ensures h.interceptorMethods == g.interceptorMethods
    ensures ScopeTables(env, h, cs[1..]).Ok?
    ensures ScopeTables(env, g, cs).value.0
            == [ScopeTableOf(env, g, RequestFor(cs[0])).value.0] + ScopeTables(env, h, cs[1..]).value.0
  {
    h := ScopeTableOf(env, g, RequestFor(cs[0])).value.1;
  }

  /** Table `i` is the scope table of class `i`, written in some state that holds the
      same interceptor methods as the start. */
  lemma {:induction false} ScopeTablesAt(env: Env, g: GenState, cs: seq<Aggregate>, i: nat) returns (gi: GenState)
    requires ScopeTables(env, g, cs).Ok? && i < |cs|
    ensures gi.interceptorMethods == g.interceptorMethods
    ensures ScopeTableOf(env, gi, RequestFor(cs[i])).Ok?
    ensures ScopeTables(env, g, cs).value.0[i] == ScopeTableOf(env, gi, RequestFor(cs[i])).value.0
    decreases i, 1
  {
    if i == 0 {
      var h := ScopeTablesCons(env, g, cs);
      gi := g;
    } else {
      gi := ScopeTablesAtLater(env, g, cs, i);
    }
  }

  /** The inductive step of ScopeTablesAt: table `i > 0` is table `i - 1` of the rest. */
  lemma {:induction false} ScopeTablesAtLater(env: Env, g: GenState, cs: seq<Aggregate>, i: nat) returns (gi: GenState)
    requires ScopeTables(env, g, cs).Ok? && 0 < i < |cs|
    ensures gi.interceptorMethods == g.interceptorMethods
    ensures ScopeTableOf(env, gi, RequestFor(cs[i])).Ok?
    ensures ScopeTables(env, g, cs).value.0[i] == ScopeTableOf(env, gi, RequestFor(cs[i])).value.0
    decreases i, 0
  {
    var h := ScopeTablesCons(env, g, cs);
    var tables := ScopeTables(env, g, cs).value.0;
    var later := ScopeTables(env, h, cs[1..]).value.0;
    assert tables[i] == later[i - 1];
    assert cs[1..][i - 1] == cs[i];
    gi := ScopeTablesAt(env, h, cs[1..], i - 1);
  }

  /** Table `i` is named after the scope of class `i`. */
  lemma ScopeTablesNames(env: Env, g: GenState, cs: seq<Aggregate>)
    requires ScopeTables(env, g, cs).Ok?
    ensures forall i :: 0 <= i < |cs| ==> ScopeTables(env, g, cs).value.0[i].name == ScopeTableName(cs[i].scopeTag)
  {
    forall i | 0 <= i < |cs|
      ensures ScopeTables(env, g, cs).value.0[i].name == ScopeTableName(cs[i].scopeTag)
    {
      var gi := ScopeTablesAt(env, g, cs, i);
    }
  }

  // ---------------------------------------------------------------------------
  // The sections of entry[]

  /** An enumerated type: its clean name, `enum`, and the `enumerated_<tag>` table; the
      omitted fourth field of the initializer is zero. */
  function EnumLine(e: EnumType): (l: RegLine)
    ensures l.Entry? && l.name == e.cleanName && l.rtype == "enum"
  {
    Entry(e.cleanName, "enum", "enumerated_" + e.tag, NULL_SYMBOL)
  }

  function EnumLines(es: seq<EnumType>): (lines: seq<RegLine>)
    ensures |lines| == |es|
    ensures forall i :: 0 <= i < |es| ==> lines[i] == EnumLine(es[i])
  {
    seq(|es|, i requires 0 <= i < |es| => EnumLine(es[i]))
  }

  /** Whether a typedef gets a line: declared in a header, and naming a flat type. */
  predicate TypedefListed(env: Env, t: Typedef)
  {
    t.declared && env.isFlat(t.aliased)
  }

  /** The line of a listed typedef numbered `u`: a proxy class `alias_<u>` when the typedef
      needs encapsulation, otherwise `=` and the name of the aliased base. */
  function TypedefLine(env: Env, t: Typedef, u: nat): (l: RegLine)
    ensures l.Entry? && l.name == t.cleanName && l.sym == NULL_SYMBOL
    ensures l.rtype == "class" <==> t.encapsulated
  {
    if t.encapsulated then Entry(t.cleanName, "class", AliasTableName(u), NULL_SYMBOL)
    else
      assert ("=" + env.actualBaseName(t.aliased))[0] == '=';
      Entry(t.cleanName, "=" + env.actualBaseName(t.aliased), NULL_SYMBOL, NULL_SYMBOL)
  }

  function ListedTypedefs(env: Env, ts: seq<Typedef>): seq<Typedef>
  {
    if |ts| == 0 then []
    else (if TypedefListed(env, ts[0]) then [ts[0]] else []) + ListedTypedefs(env, ts[1..])
  }

  /** The typedef lines. Only an encapsulated typedef is numbered. */
  function TypedefLines(env: Env, g: GenState, ts: seq<Typedef>): (res: (seq<RegLine>, GenState))
    ensures |res.0| == |ListedTypedefs(env, ts)|
    ensures Later(g, res.1) && res.1 == g.(uids := res.1.uids)
    decreases |ts|
  {
    if |ts| == 0 then
      LaterReflexive(g);
      ([], g)
    else
      var t := ts[0];
      if !TypedefListed(env, t) then TypedefLines(env, g, ts[1..])
      else if t.encapsulated then
        var (u, g1) := Number(g, t.id);
        var rest := TypedefLines(env, g1, ts[1..]);
        LaterTransitive(g, g1, rest.1);
        ([TypedefLine(env, t, u)] + rest.0, rest.1)
      else
        var rest := TypedefLines(env, g, ts[1..]);
        ([TypedefLine(env, t, 0)] + rest.0, rest.1)
  }

  /** Line `i` of the typedef section belongs to listed typedef `i`, and an encapsulated
      one names the proxy class numbered after it in the final state. */
  lemma {:induction false} TypedefLinesAt(env: Env, g: GenState, ts: seq<Typedef>, i: nat)
    requires i < |ListedTypedefs(env, ts)|
    ensures var t := ListedTypedefs(env, ts)[i];
            var res := TypedefLines(env, g, ts);
            && res.0[i].Entry? && res.0[i].name == t.cleanName
            && (res.0[i].rtype == "class" <==> t.encapsulated)
            && (t.encapsulated ==> t.id in res.1.uids.ids && res.0[i].proto == AliasTableName(res.1.uids.ids[t.id]))
    decreases |ts|
  {
    var t := ts[0];
    if !TypedefListed(env, t) {
      TypedefLinesAt(env, g, ts[1..], i);
    } else {
      var g1 := if t.encapsulated then Number(g, t.id).1 else g;
      TypedefLinesCons(env, g, ts);
      assert ListedTypedefs(env, ts) == [t] + ListedTypedefs(env, ts[1..]);
      if i > 0 {
        TypedefLinesAt(env, g1, ts[1..], i - 1);
      }
    }
  }

  /** A listed typedef at the head contributes its line, numbered in the final state when
      it is encapsulated; the rest follows from the state after it. */
  lemma TypedefLinesCons(env: Env, g: GenState, ts: seq<Typedef>)
    requires |ts| > 0 && TypedefListed(env, ts[0])
    ensures var t := ts[0];
            var g1 := if t.encapsulated then Number(g, t.id).1 else g;
            var res := TypedefLines(env, g, ts);
            var rest := TypedefLines(env, g1, ts[1..]);
            && |res.0| > 0 && res.0[1..] == rest.0 && res.1 == rest.1
            && res.0[0].Entry? && res.0[0].name == t.cleanName
            && (res.0[0].rtype == "class" <==> t.encapsulated)
            && (t.encapsulated ==> t.id in res.1.uids.ids && res.0[0].proto == AliasTableName(res.1.uids.ids[t.id]))
  {
    var t := ts[0];
    if t.encapsulated {
      var (u, g1) := Number(g, t.id);
      var rest := TypedefLines(env, g1, ts[1..]);
      assert TypedefLines(env, g, ts) == ([TypedefLine(env, t, u)] + rest.0, rest.1);
      assert rest.1.uids.ids[t.id] == u;
    }
  }

  /** A class: its clean name, `class`, and its scope table; the fourth field is zero. */
  function ClassLine(a: Aggregate): (l: RegLine)
    ensures l.Entry? && l.name == a.cleanName && l.rtype == "class"
  {
    Entry(a.cleanName, "class", ScopeTableName(a.scopeTag), NULL_SYMBOL)
  }

  function ClassLines(cs: seq<Aggregate>): (lines: seq<RegLine>)
    ensures |lines| == |cs|
    ensures forall i :: 0 <= i < |cs| ==> lines[i] == ClassLine(cs[i])
  {
    seq(|cs|, i requires 0 <= i < |cs| => ClassLine(cs[i]))
  }

  // ---------------------------------------------------------------------------
  // generateEntry

  /** The output of `generateEntry`: the scope tables, then `entry[]`. */
  datatype EntryOutput = EntryOutput(tables: seq<ScopeTable>, entry: seq<RegLine>)

  /** The sections of `entry[]` before the sentinel, in order. */
  datatype EntrySections = EntrySections(
    enums: seq<RegLine>,
    typedefs: seq<RegLine>,
    classes: seq<RegLine>,
    functions: seq<RegLine>,
    statics: seq<RegLine>,
    data: seq<RegLine>,
    downcasters: seq<RegLine>)

  function EntrySectionLines(s: EntrySections): seq<RegLine>
  {
    s.enums + s.typedefs + s.classes + s.functions + s.statics + s.data + s.downcasters
  }

  /** `generateEntry` up to the sentinel. The scope tables of the available classes come
      first (in collection order); then the sections. The static entries and the
      downcasters are whatever the state holds at the point they are printed. */
  function EntryParts(env: Env, g: GenState, req: EntryRequest): (res: Result<(seq<ScopeTable>, EntrySections, GenState)>)
    ensures res.Ok? ==> Later(g, res.value.2) && res.value.2 == g.(uids := res.value.2.uids)
  {
    var tables :- ScopeTables(env, g, AvailableClasses(req.subjects));
    var tdefs := TypedefLines(env, tables.1, req.typedefs);
    var funcs :- RoutinesRegLines(env, tdefs.1, AvailableRoutines(req.globalFuncs), 0, false);
    var data :- FieldsRegLines(env, funcs.1, AvailableFields(req.globalData), false);
    LaterTransitive(g, tables.1, tdefs.1);
    LaterTransitive(g, tdefs.1, funcs.1);
    LaterTransitive(g, funcs.1, data.1);
    Ok((tables.0,
        EntrySections(EnumLines(req.enums), tdefs.0, ClassLines(AvailableClasses(req.sorted)),
                      funcs.0, funcs.1.entry, data.0, data.1.downCasters),
        data.1))
  }

  /** `generateEntry`: the scope tables and `entry[]`, closed by the sentinel. */
  function GenerateEntry(env: Env, g: GenState, req: EntryRequest): (res: Result<(EntryOutput, GenState)>)
    ensures res.Ok? <==> EntryParts(env, g, req).Ok?
    ensures res.Ok? ==>
              && res.value.0.tables == EntryParts(env, g, req).value.0
              && res.value.0.entry == EntrySectionLines(EntryParts(env, g, req).value.1) + [EndOfList]
              && res.value.1 == EntryParts(env, g, req).value.2
  {
    var parts :- EntryParts(env, g, req);
    Ok((EntryOutput(parts.0, EntrySectionLines(parts.1) + [EndOfList]), parts.2))
  }

  /** The sections have the sizes their sources give, the enumerated types and classes
      are listed in order, and the accumulated lines are those the state held on entry:
      registering tables, typedefs, functions and data only numbers objects. */
  lemma EntrySectionsShape(env: Env, g: GenState, req: EntryRequest)
    requires EntryParts(env, g, req).Ok?
    ensures var s := EntryParts(env, g, req).value.1;
            && s.enums == EnumLines(req.enums)
            && |s.typedefs| == |ListedTypedefs(env, req.typedefs)|
            && s.classes == ClassLines(AvailableClasses(req.sorted))
            && |s.functions| == Widths(AvailableRoutines(req.globalFuncs))
            && s.statics == g.entry
            && |s.data| == FieldLineCount(AvailableFields(req.globalData))
            && s.downcasters == g.downCasters
  {
  }

  /** The order of `entry[]`: `e` has one line per enumerated type, typedef line, class,
      function line and trailing line, plus the sentinel, which is last; enumerated type
      `i` is line `i`, class `j` sits after the enumerated types and the typedefs, and the
      function lines follow the classes. */
  ghost predicate EntryOrder(e: seq<RegLine>, enums: seq<EnumType>, nTypedefs: nat, classes: seq<Aggregate>,
                             functions: seq<RegLine>, nTail: nat)
  {
    var classStart := |enums| + nTypedefs;
    var funcStart := classStart + |classes|;
    && |e| == funcStart + |functions| + nTail + 1
    && e[|e| - 1] == EndOfList
    && (forall i :: 0 <= i < |enums| ==> e[i] == EnumLine(enums[i]))
    && (forall j :: 0 <= j < |classes| ==> e[classStart + j] == ClassLine(classes[j]))
    && (forall j :: 0 <= j < |functions| ==> e[funcStart + j] == functions[j])
  }

  /** The order of `entry[]` (the section lines `GenerateEntry` closes with the
      sentinel): the enumerated types, the typedefs, the classes in sorted order, the
      global functions, then the static entries, the global data and the downcasters the
      state holds, and the sentinel last. */
  lemma EntryLayout(env: Env, g: GenState, req: EntryRequest)
    requires EntryParts(env, g, req).Ok?
    ensures var s := EntryParts(env, g, req).value.1;
            EntryOrder(EntrySectionLines(s) + [EndOfList], req.enums, |s.typedefs|, AvailableClasses(req.sorted),
                       s.functions, |g.entry| + |s.data| + |g.downCasters|)
  {
    EntrySectionsShape(env, g, req);
    SectionsLayout(EntryParts(env, g, req).value.1, req.enums, AvailableClasses(req.sorted), g.entry, g.downCasters);
  }

  /** The layout of `EntryLayout` for any sections whose enumerated-type and class lines
      are those of the given lists. */
  lemma SectionsLayout(s: EntrySections, enums: seq<EnumType>, classes: seq<Aggregate>,
                       statics: seq<RegLine>, downcasters: seq<RegLine>)
    requires s.enums == EnumLines(enums) && s.classes == ClassLines(classes)
    requires s.statics == statics && s.downcasters == downcasters
    ensures EntryOrder(EntrySectionLines(s) + [EndOfList], enums, |s.typedefs|, classes, s.functions,
                       |statics| + |s.data| + |downcasters|)
  {
    var e := EntrySectionLines(s) + [EndOfList];
    EntryLength(s);
    forall i | 0 <= i < |enums| ensures e[i] == EnumLine(enums[i]) {
      EntryEnumAt(s, i);
    }
    forall j | 0 <= j < |classes| ensures e[|enums| + |s.typedefs| + j] == ClassLine(classes[j]) {
      EntryClassAt(s, j);
    }
    forall j | 0 <= j < |s.functions| ensures e[|enums| + |s.typedefs| + |classes| + j] == s.functions[j] {
      EntryFunctionAt(s, j);
    }
  }

  /** The lines of the sections followed by the sentinel: their count, and the sentinel
      last. */
  lemma EntryLength(s: EntrySections)
    ensures var e := EntrySectionLines(s) + [EndOfList];
            && |e| == |s.enums| + |s.typedefs| + |s.classes| + |s.functions| + |s.statics| + |s.data| + |s.downcasters| + 1
            && e[|e| - 1] == EndOfList
  {
  }

  /** Enumerated-type line `i` opens the table. */
  lemma EntryEnumAt(s: EntrySections, i: nat)
    requires i < |s.enums|
    ensures (EntrySectionLines(s) + [EndOfList])[i] == s.enums[i]
  {
    var rest := s.typedefs + s.classes + s.functions + s.statics + s.data + s.downcasters + [EndOfList];
    assert EntrySectionLines(s) + [EndOfList] == s.enums + rest;
  }

  /** Class line `j` follows the enumerated types and the typedefs. */
  lemma EntryClassAt(s: EntrySections, j: nat)
    requires j < |s.classes|
    ensures (EntrySectionLines(s) + [EndOfList])[|s.enums| + |s.typedefs| + j] == s.classes[j]
  {
    var rest := s.functions + s.statics + s.data + s.downcasters + [EndOfList];
    assert EntrySectionLines(s) + [EndOfList] == (s.enums + s.typedefs) + (s.classes + rest);
  }

  /** Function line `j` follows the classes. */
  lemma EntryFunctionAt(s: EntrySections, j: nat)
    requires j < |s.functions|
    ensures (EntrySectionLines(s) + [EndOfList])[|s.enums| + |s.typedefs| + |s.classes| + j] == s.functions[j]
  {
    var rest := s.statics + s.data + s.downcasters + [EndOfList];
    assert EntrySectionLines(s) + [EndOfList] == (s.enums + s.typedefs + s.classes) + (s.functions + rest);
  }

  /** Some table of `tables` is called `name`. */
  ghost predicate HasTable(tables: seq<ScopeTable>, name: string)
  {
    exists t :: t in tables && t.name == name
  }

  /** Some class line of `classes` points at the table called `name`. */
  ghost predicate HasClassLine(classes: seq<RegLine>, name: string)
  {
    exists j :: 0 <= j < |classes| && classes[j].Entry? && classes[j].proto == name
  }

  /** Every class line names a scope table that was written, and every scope table is
      named by a class line, when the sorted list holds the same classes as the collected
      one. */
  lemma ClassLinesNameTables(env: Env, g: GenState, req: EntryRequest)
    requires GenerateEntry(env, g, req).Ok?
    requires forall a :: a in req.sorted <==> a in req.subjects
    ensures var out := GenerateEntry(env, g, req).value.0;
            var classes := ClassLines(AvailableClasses(req.sorted));
            && (forall j :: 0 <= j < |classes| ==> HasTable(out.tables, classes[j].proto))
            && (forall t :: t in out.tables ==> HasClassLine(classes, t.name))
  {
    var avail := AvailableClasses(req.subjects);
    var sortedAvail := AvailableClasses(req.sorted);
    AvailableClassesMembers(req.subjects);
    AvailableClassesMembers(req.sorted);
    assert forall a :: a in sortedAvail <==> a in avail;
    EntryTables(env, g, req);
    var tables := ScopeTables(env, g, avail).value.0;
    assert GenerateEntry(env, g, req).value.0.tables == tables;
    ScopeTablesNames(env, g, avail);
    TablesMatchClasses(tables, avail, sortedAvail);
  }

  /** The tables `generateEntry` writes are those of the available classes. */
  lemma EntryTables(env: Env, g: GenState, req: EntryRequest)
    requires GenerateEntry(env, g, req).Ok?
    ensures ScopeTables(env, g, AvailableClasses(req.subjects)).Ok?
    ensures GenerateEntry(env, g, req).value.0.tables == ScopeTables(env, g, AvailableClasses(req.subjects)).value.0
  {
  }

  /** Tables named after the scopes of one list of classes, and class lines for a list
      holding the same classes: each side names something on the other. */
  lemma TablesMatchClasses(tables: seq<ScopeTable>, avail: seq<Aggregate>, sortedAvail: seq<Aggregate>)
    requires |tables| == |avail|
    requires forall i :: 0 <= i < |avail| ==> tables[i].name == ScopeTableName(avail[i].scopeTag)
    requires forall a :: a in sortedAvail <==> a in avail
    ensures var classes := ClassLines(sortedAvail);
            && (forall j :: 0 <= j < |classes| ==> HasTable(tables, classes[j].proto))
            && (forall t :: t in tables ==> HasClassLine(classes, t.name))
  {
    var classes := ClassLines(sortedAvail);
    forall j | 0 <= j < |classes|
      ensures HasTable(tables, classes[j].proto)
    {
      var a := sortedAvail[j];
      assert a in sortedAvail;
      assert a in avail;
      var i :| 0 <= i < |avail| && avail[i] == a;
      assert classes[j] == ClassLine(a);
      assert classes[j].proto == ScopeTableName(a.scopeTag);
      var t := tables[i];
      assert t in tables;
      assert t.name == classes[j].proto;
    }
    forall t | t in tables
      ensures HasClassLine(classes, t.name)
    {
      var i :| 0 <= i < |tables| && tables[i] == t;
      var a := avail[i];
      assert a in avail;
      assert a in sortedAvail;
      var j :| 0 <= j < |sortedAvail| && sortedAvail[j] == a;
      assert classes[j] == ClassLine(a);
      assert classes[j].proto == ScopeTableName(a.scopeTag);
      assert t.name == classes[j].proto;
      assert classes[j].Entry?;
    }
  }
}
