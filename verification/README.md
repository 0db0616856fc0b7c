# Robin code generator: a Dafny model

Robin binds C++ libraries to scripting languages. Its back end,
`griffin.backend.robin.CodeGenerator`, reads the analysed C++ program and writes one C++
source file. That file holds:

- a flat C wrapper for each routine and each argument count it accepts;
- a `RegData` prototype array for each wrapper;
- a registration table for each class (`scope_<hash>[]`);
- the `entry[]` table, which lists the enums, typedefs, classes, global functions,
  global data and down-casters.

For classes that a script may extend, the generator also writes an *interceptor*
subclass `I<Name>`. Each virtual method of the interceptor calls back into the
front end through a slot number. That number must equal the position of the method's
registration line in the interceptor's own scope table. `Formatters` is a helper class
that spells parameters, arguments, expressions, declarations, locations and members in
C++.

This project models that core as pure functions over immutable records. The generator's
mutable state is threaded explicitly as a `GenState`:

- the `uid` table;
- the set of routines the interceptors implement in the front end;
- the accumulated down-caster and entry lines.

Output text is modelled as records (`RegLine`, `FlatWrapper`, `Interceptor`, …) that hold
the strings the generator writes. Collaborators whose source is not part of this model
(`Filters`, `Utils`, `TypeToolbox`, `RoutineDeduction`, `Type.formatCpp`, …) are handled
in one of two ways. An answer about one object becomes an attribute of that object's
record. A query on type expressions becomes a function-valued field of `Env`. In both
cases the model treats the answer as an unknown function.

Modules (one file each):

- `Support`: `Result`, decimal numerals, `Join`, `Count`.
- `Model`: the entity and type model, `Env`, `RegLine`.
- `Identity` and `State`: `uid` and the generator state.
- `Names`: the generated symbol names.
- `Formatters`: the `Formatters` class.
- `TypeRules`: the touchup table and `removeUnneededConstness`.
- `Wrappers`: flat bases, prototypes, flat wrappers, overload expansion, field accessors
  and casts.
- `Registration`: registration lines and scope tables.
- `EntryTable`: `generateEntry`.
- `Interceptors`: interceptor creation and the interceptor functions.

## Model

| member | source | states |
|---|---|---|
| Identity.Uid | src/griffin/backend/robin/CodeGenerator.java:134-144 | a known object keeps its number and the table is unchanged; a new object gets the previous counter plus one, and the counter advances |
| Identity.UidValid | src/griffin/backend/robin/CodeGenerator.java:134-144 | numbering keeps the table well formed: exactly `next` objects, numbered 1..next, no two sharing a number |
| Identity.UidAllSameIffEqual | src/griffin/backend/robin/CodeGenerator.java:127-144 | over any sequence of requests from the empty table, two requests get the same number exactly when they name the same object |
| Identity.FirstSeenRank | src/griffin/backend/robin/CodeGenerator.java:134-144 | an object first seen at request i gets 1 + the number of distinct objects seen before it |
| Identity.UidAllKeys | src/griffin/backend/robin/CodeGenerator.java:134-144 | after a sequence of requests, the numbered objects are the earlier ones plus exactly those requested |
| State.NumberStable | src/griffin/backend/robin/CodeGenerator.java:134-144 | once an object is numbered, asking again in any later state gives the same number and changes nothing |
| TypeRules.InitialTouchups | src/griffin/backend/robin/CodeGenerator.java:77-124 | the table is keyed by bare float, double, long long and unsigned long long; every substitute is a single pointer |
| TypeRules.InitialTouchupsHasFourEntries | src/griffin/backend/robin/CodeGenerator.java:77-124 | the constructor registers exactly four touchups |
| TypeRules.ExpressionBoxedExactlyForWidePrimitives | trunk/src/griffin/backend/robin/Formatters.java:52-64 | with the constructor's table in place, an expression is wrapped in `touchup(…)` exactly when its value type is one of the four wide primitives |
| TypeRules.TouchedUpDeclarationIsPointer | trunk/src/griffin/backend/robin/Formatters.java:66-81 | a declaration of a touched-up type declares the table's substitute, which is a pointer |
| TypeRules.ConstnessGuardAlwaysHolds | src/griffin/backend/robin/CodeGenerator.java:1881-1883 | the guard `(cv \| CONST) != 0` holds for every cv value, so the constness test never excludes anything |
| TypeRules.ConstnessStrippedFromEveryPrimitiveLeaf | src/griffin/backend/robin/CodeGenerator.java:1875-1891 | every primitive leaf, whatever its qualifiers, becomes the bare primitive; volatile is stripped too |
| TypeRules.RemoveUnneededConstness | src/griffin/backend/robin/CodeGenerator.java:1875-1891 | the base and pointer degree are kept, and anything other than a primitive leaf is returned unchanged |
| TypeRules.RemoveUnneededConstnessIdempotent | src/griffin/backend/robin/CodeGenerator.java:1875-1891 | applying the rewrite twice gives the same result as once |
| Formatters.Dereference | trunk/src/griffin/backend/robin/Formatters.java:89-97 | the result is not a reference; a non-reference is returned unchanged; base, pointer degree and template arguments are kept |
| Formatters.DereferenceIdempotent | trunk/src/griffin/backend/robin/Formatters.java:89-97 | dereferencing twice is dereferencing once |
| Formatters.DereferenceReconstructs | trunk/src/griffin/backend/robin/Formatters.java:89-97 | putting back the stripped reference layers gives the original type |
| Formatters.DereferenceAddReferences | trunk/src/griffin/backend/robin/Formatters.java:89-97 | adding reference layers does not change what dereference yields |
| Formatters.ParameterDeclarator | trunk/src/griffin/backend/robin/Formatters.java:10-22 | the name gets a `*` exactly when the type needs extra referencing; a small-primitive reference loses its reference, and no other type changes |
| Formatters.FormatArgument | trunk/src/griffin/backend/robin/Formatters.java:24-30 | the name is wrapped in `touchdown(…)` exactly when the type needs extra referencing |
| Formatters.FormatArgumentInjective | trunk/src/griffin/backend/robin/Formatters.java:24-30 | different argument names always give different argument texts |
| Formatters.ParameterAndArgumentAgree | trunk/src/griffin/backend/robin/Formatters.java:10-30 | a parameter is declared `*name` exactly when the matching argument text is `touchdown(name)` |
| Formatters.ValueType | trunk/src/griffin/backend/robin/Formatters.java:52-58 | a reference to a primitive is dereferenced, and nothing else changes |
| Formatters.FormatExpression | trunk/src/griffin/backend/robin/Formatters.java:52-64 | the expression is wrapped in `touchup(…)` exactly when the value type has a touchup |
| Formatters.PrimitiveReferenceFormatsAsValue | trunk/src/griffin/backend/robin/Formatters.java:52-64 | a primitive reference formats exactly as its value type |
| Formatters.DeclarationDeclarator | trunk/src/griffin/backend/robin/Formatters.java:66-81 | the declared type is the touchup of the value type when one exists, else the value type; the name gets the scheme character exactly when that type needs extra referencing |
| Formatters.FormatLocation | trunk/src/griffin/backend/robin/Formatters.java:32-42 | a missing declaration gives exactly "location unknown"; otherwise the text starts with "from " |
| Formatters.LocationRoundTrip | trunk/src/griffin/backend/robin/Formatters.java:32-42 | the file and line can be read back from the location text, so different declarations give different texts |
| Formatters.FormatMember | trunk/src/griffin/backend/robin/Formatters.java:44-50 | a class member is reached through `self->name`; any other field by its clean full name |
| Formatters.MemberRoundTrip | trunk/src/griffin/backend/robin/Formatters.java:44-50 | the member text tells a class member (and its name) from a field reached by full name, when no full name starts with `self->` |
| Names.WrapperNameInjective | src/griffin/backend/robin/CodeGenerator.java:1174-1175 | different (uid, with, argument count) triples never give the same wrapper name |
| Names.ProtoNameInjective | src/griffin/backend/robin/CodeGenerator.java:1423-1424 | the same holds for prototype array names |
| Names.GetterNameInjective | src/griffin/backend/robin/CodeGenerator.java:1346 | different fields or markers never share a getter name |
| Names.CastSuffixInjective | src/griffin/backend/robin/CodeGenerator.java:1633-1675 | the pair of scope numbers can be read back from an upcast or downcast name |
| Names.ArgNameInjective | src/griffin/backend/robin/CodeGenerator.java:399-419 | interceptor argument names are distinct for distinct positions |
| Wrappers.FlatBase | src/griffin/backend/robin/CodeGenerator.java:1094-1116 | the text starts with the clean name of the original type's base; it is exactly that name when there are no template arguments, and otherwise the name followed by `< a1,…,an >` with unknown arguments spelled `?` |
| Wrappers.TemplateListCommas | src/griffin/backend/robin/CodeGenerator.java:1102-1115 | a list of n comma-free arguments carries exactly n−1 separating commas |
| Wrappers.DecoratedFlatBase | src/griffin/backend/robin/CodeGenerator.java:1127-1139 | aliases are resolved first; enums are prefixed with `#` and arrays suffixed with `[]` |
| Wrappers.Markers | src/griffin/backend/robin/CodeGenerator.java:1436-1462 | for a class-typed parameter, one `>` appears exactly for output parameters, with one pointer star fewer; `&` appears once per reference and once more for extra referencing; in order: the `>` or reference `&` first, only stars in between, the extra `&` last; a primitive gets only the `*` of a char pointer |
| Wrappers.DecoratedFlatBaseRoundTrip | src/griffin/backend/robin/CodeGenerator.java:1127-1139 | a decorated base, read back, gives the enum mark, the array mark and the flat base of the type behind its aliases, for a base name that does not start with a mark or end with `]` |
| Wrappers.MarkersRead | src/griffin/backend/robin/CodeGenerator.java:1445-1454 | reading the markers back recovers the output flag, the star count and the number of `&`, and the side of each `&` whenever a `>` or a star separates them |
| Wrappers.ParamTypeStringRoundTrip | src/griffin/backend/robin/CodeGenerator.java:1436-1462 | a parameter's type string, read back, gives its markers as above, the enum and array marks, and the flat base of the type behind its aliases, for a base name that does not start with a mark or end with `]` |
| Wrappers.FlatBaseRoundTrip | src/griffin/backend/robin/CodeGenerator.java:1094-1116 | a flat base, read back, gives the clean name and the template argument texts, when the name has no `<` and the texts are non-empty and comma-free |
| Wrappers.ProtoLines | src/griffin/backend/robin/CodeGenerator.java:1420-1466 | one line per included parameter, in order, with its name and type string, then the end marker |
| Wrappers.RoutinePrototype | src/griffin/backend/robin/CodeGenerator.java:1420-1466 | the array is named after the routine's uid, the `with` marker and the argument count |
| Wrappers.SelfParameter | src/griffin/backend/robin/CodeGenerator.java:1154-1260 | `*self` is declared for instance wrappers of non-constructors and for static call wrappers; a static call wrapper without a container is an error |
| Wrappers.Invocation | src/griffin/backend/robin/CodeGenerator.java:1221-1256 | a constructor without a class is an error, otherwise `return new C(args)`; a free call is `fullName(args)`, and a free conversion operator has no argument list; on `self`, a conversion operator becomes `CONVOP(<spelled return type>,self)` and is an error without a return type; `operator==` and `operator!=` are applied to `*self`; any other method is called as `self->name(args)`, or as `self->fullName(args)` by a static call wrapper |
| Wrappers.InvocationArgumentsInjective | src/griffin/backend/robin/CodeGenerator.java:1245-1256 | the argument list is passed verbatim: two calls of one routine on one class are the same text exactly when their arguments are |
| Wrappers.FlatRoutineWrapper | src/griffin/backend/robin/CodeGenerator.java:1154-1260 | the wrapper is named after the routine's uid; deduction failures, and a call expression that cannot be formed, are errors; a constructor wrapper returns `C*` built by `new`; the body evaluates the call expression of the routine on the same deduced arguments whose parameters it declares |
| Wrappers.ExpandRoutine | src/griffin/backend/robin/CodeGenerator.java:882-967 | a routine expands into max−min+1 overloads; overload i is for min+i arguments and its prototype and wrapper names carry the routine's uid; the class loop writes no wrapper for a routine an interceptor implements, the global-function loop always writes one |
| Wrappers.ExpandFromNamed | src/griffin/backend/robin/CodeGenerator.java:882-967 | every overload from argument count n on is named after the same uid with consecutive argument counts |
| Wrappers.FieldAccessors | src/griffin/backend/robin/CodeGenerator.java:1332-1413 | getter, setter and sink names carry the field's uid; a setter exists exactly when the field has one; a sink is written only outside interceptors; a wrapped field delegates to the interceptor's accessors |
| Wrappers.WrappedFieldDelegation | src/griffin/backend/robin/CodeGenerator.java:1332-1413 | the outer accessors of an interceptor field call exactly the inner accessors generated for it |
| Wrappers.CastsFor | src/griffin/backend/robin/CodeGenerator.java:1633-1675 | each public base gets an upcast named after the derived and base scope numbers; a downcast exists exactly when the base is polymorphic, and its line is appended to the down-casters |
| Wrappers.Casts | src/griffin/backend/robin/CodeGenerator.java:1633-1675 | one upcast per public base; the only state change is numbering and appending the downcaster lines |
| Wrappers.CastsUpNamed | src/griffin/backend/robin/CodeGenerator.java:1633-1675 | upcast i belongs to public base i |
| Wrappers.CastsDownNamed | src/griffin/backend/robin/CodeGenerator.java:1633-1675 | downcast i belongs to polymorphic public base i |
| Registration.RoutineLine | src/griffin/backend/robin/CodeGenerator.java:1686-1723 | the symbol is null exactly for a routine an interceptor implements |
| Registration.RoutineRegLines | src/griffin/backend/robin/CodeGenerator.java:1686-1723 | a routine gets max−min+1 lines; it fails exactly when return deduction fails |
| Registration.RoutineRegLinesNumbered | src/griffin/backend/robin/CodeGenerator.java:1686-1723 | writing lines for an already-numbered routine changes no state |
| Registration.RoutineLinesMatchOverloads | src/griffin/backend/robin/CodeGenerator.java:1686-1723 | registration line i refers to overload i's prototype (with the skip count); it is null exactly when an interceptor implements the routine and otherwise refers to overload i's wrapper; the wrapper is missing exactly when the class loop met such a routine |
| Registration.FieldRegLines | src/griffin/backend/robin/CodeGenerator.java:1725-1747 | a `.data_` line with the getter, and a `.sink_` line with the setter and sink prototype exactly when the field has a setter |
| Registration.FieldLinesMatchAccessors | src/griffin/backend/robin/CodeGenerator.java:1725-1747 | the field's lines refer to exactly the accessors written for it |
| Registration.ExtendsLines | src/griffin/backend/robin/CodeGenerator.java:1762-1777 | one `extends` line per public base, named after the base |
| Registration.ExtendsMatchUpcasts | src/griffin/backend/robin/CodeGenerator.java:1768-1775 | extends line i calls upcast i written for the same base |
| Registration.RoutinesRegLinesSucceed | src/griffin/backend/robin/CodeGenerator.java:1778-1790 | the routine section succeeds exactly when every listed routine's return deduction succeeds |
| Registration.RoutinesRegLinesAt | src/griffin/backend/robin/CodeGenerator.java:1778-1790 | routine k's line for min+i arguments sits at Widths(routines before k)+i |
| Registration.ScopeSectionsSucceed | src/griffin/backend/robin/CodeGenerator.java:1755-1832 | the table fails exactly when a listed routine, available field or additional routine cannot be deduced |
| Registration.DefaultConstructorLine | src/griffin/backend/robin/CodeGenerator.java:1799-1803 | a `*` default-constructor line appears exactly when the class is concrete, has no listed constructor and needs one |
| Registration.SpecialLinesFor | src/griffin/backend/robin/CodeGenerator.java:1798-1826 | each special line is named as listed and points at the wrapper named after the scope's uid |
| Registration.ScopeTableOf | src/griffin/backend/robin/CodeGenerator.java:1755-1832 | the table is named `scope_<tag>` and holds the sections followed by the end marker |
| Registration.ScopeTableLayout | src/griffin/backend/robin/CodeGenerator.java:1755-1832 | the table length is bases + routine widths + field lines + special lines + additional widths + 1; all lines but the last are entries; the first lines are the public bases' extends lines |
| Registration.ScopeRoutineLineAt | src/griffin/backend/robin/CodeGenerator.java:1755-1832 | routine k's line for min+i arguments sits at (public bases)+Widths(routines before k)+i |
| EntryTable.ScopeTables | src/griffin/backend/robin/CodeGenerator.java:999-1013 | one scope table per available class |
| EntryTable.ScopeTablesNames | src/griffin/backend/robin/CodeGenerator.java:999-1013 | table i is named after class i's scope tag |
| EntryTable.TypedefLinesAt | src/griffin/backend/robin/CodeGenerator.java:1029-1049 | each declared flat typedef gets a line; it is a class with an `alias_<uid>` table exactly when it needs encapsulation |
| EntryTable.GenerateEntry | src/griffin/backend/robin/CodeGenerator.java:995-1085 | the output is the scope tables and the entry sections followed by the end marker |
| EntryTable.EntrySectionsShape | src/griffin/backend/robin/CodeGenerator.java:1021-1083 | the sections are the enums, the listed typedefs, the available classes, the available functions, the accumulated entry lines, the available data and the down-casters |
| EntryTable.EntryLayout | src/griffin/backend/robin/CodeGenerator.java:1021-1084 | entry[] places the enums first, then the typedefs, then the classes in sorted order, then the functions; its length adds up and it ends with the end marker |
| EntryTable.ClassLinesNameTables | src/griffin/backend/robin/CodeGenerator.java:995-1060 | every class line names a scope table that was written, and every written table is named by a class line |
| Interceptors.InvestInterceptorMembers | src/griffin/backend/robin/CodeGenerator.java:152-162 | a subject is chosen exactly when its name matches, it is not known to be non-abstract, and it is not a separately generated template |
| Interceptors.AutoInvestInterceptorMembers | src/griffin/backend/robin/CodeGenerator.java:167-175 | a subject is chosen exactly when it is not known to be non-polymorphic and is not a separately generated template |
| Interceptors.LastDestructorIsLast | src/griffin/backend/robin/CodeGenerator.java:660-670 | the destructor picked is the last destructor in the list; there is none exactly when no routine is a destructor |
| Interceptors.ThrowsClause | src/griffin/backend/robin/CodeGenerator.java:385-397 | the clause is empty exactly when there is no destructor with a throw clause; otherwise it is ` throw(…)` |
| Interceptors.ForwardPassesDeclaredNames | src/griffin/backend/robin/CodeGenerator.java:345-383 | forwarded constructor parameter i is declared with the name passed to the base constructor |
| Interceptors.CtorForwards | src/griffin/backend/robin/CodeGenerator.java:676-687 | a forwarded constructor yields one forwarding constructor per argument count from min to max |
| Interceptors.ArgumentArray | src/griffin/backend/robin/CodeGenerator.java:421-438 | no arguments gives `args = NULL`; otherwise one conversion per passed argument |
| Interceptors.ArgumentTouchup | src/griffin/backend/robin/CodeGenerator.java:440-470 | argument i is `interceptor_arg<i>`; it is touched up exactly when its shallow original type is in the table, and passed by address exactly when it needs extra referencing and has no touchup |
| Interceptors.CallbackCall | src/griffin/backend/robin/CodeGenerator.java:475-522 | the call goes to the given table and slot; a pure virtual has no fallback; otherwise the fallback calls the base method and returns a value exactly when the method is not void |
| Interceptors.ReturnStatementOf | src/griffin/backend/robin/CodeGenerator.java:524-569 | a void method has no return statement |
| Interceptors.ReturnTouchdown | src/griffin/backend/robin/CodeGenerator.java:524-569 | the result is touched down exactly when the return type has a touchup; it is boxed exactly when the effective type needs extra referencing |
| Interceptors.OverloadArgumentsAgree | src/griffin/backend/robin/CodeGenerator.java:580-602 | the header, argument array and fallback call of one overload use the same argument names and count |
| Interceptors.OverrideFor | src/griffin/backend/robin/CodeGenerator.java:580-602 | a virtual gets one overload per argument count, starting at the given counter |
| Interceptors.OverloadIndex | src/griffin/backend/robin/CodeGenerator.java:580-602 | the overload for min+i arguments uses slot counter+i |
| Interceptors.OverrideCounter | src/griffin/backend/robin/CodeGenerator.java:630-725 | the slot counter starts at 3, grows by each forwarded constructor's width and by one for the default constructor; virtual k's overload i uses slot (counter after constructors) + (slots of earlier virtuals) + i |
| Interceptors.ExposeFieldShape | src/griffin/backend/robin/CodeGenerator.java:745-790 | an array field is skipped; any other field gets a public wrapped clone whose type is `intercepted_<uid>`, and the typedef is written only the first time that key is seen |
| Interceptors.ExposedTypedefsDistinct | src/griffin/backend/robin/CodeGenerator.java:731-790 | no typedef name is written twice for one interceptor |
| Interceptors.ExposedAccessors | src/griffin/backend/robin/CodeGenerator.java:745-790 | an exposed field gets interceptor accessors named after the clone's uid, with a setter exactly when the field has one and no sink |
| Interceptors.CreateInterceptor | src/griffin/backend/robin/CodeGenerator.java:630-743 | every virtual that is not private is added to the methods the front end implements, with one override each |
| Interceptors.CreateInterceptorShape | src/griffin/backend/robin/CodeGenerator.java:630-743 | the interceptor is `I<name>`, derives from the subject, has its own scope, calls back through its own scope's table, and lists its routines in creation order |
| Interceptors.CounterIsPosition | src/griffin/backend/robin/CodeGenerator.java:630-725 | the counter for virtual k equals 1 + the widths of the routines listed before its override in the interceptor |
| Interceptors.InterceptorOverrideAt | src/griffin/backend/robin/CodeGenerator.java:630-743 | for a regular subject, overload i of virtual k calls slot 1 + Widths(routines before its override) + i in the interceptor's own scope table |
| Interceptors.OverrideIndexIsTablePosition | src/griffin/backend/robin/CodeGenerator.java:630-743 | the slot an override calls is the position of its own registration line in the interceptor's scope table, and that line is the null-symbol line for the same routine and argument count |
| Interceptors.GenerateInterceptorsSubjects | src/griffin/backend/robin/CodeGenerator.java:801-824 | one interceptor per extensible subject, in order, each named `I<name>` and deriving from its subject |

## Left out

- Text emission through `Writer`: comments, blank lines, the random namespace, `#include`
  lines and the flush. Output is modelled as records holding the strings the generator
  writes.
- `hashCode()` values: scope and enum tags are opaque strings supplied by the caller
  (`scopeTag`). The model does not treat them as injective.
- `topologicallySortSubjects`. `generateEntry` receives the sorted list as an input.
  `EntryTable.ClassLinesNameTables` assumes that list holds the same classes as the
  subjects.
- Alias tables and the `routine_alias_`/`routine_unalias_` wrappers for encapsulated
  typedefs. Also left out: the `.robin` property the `_py` routine sets.
- Template instance maps, and the collaborators listed at the top. Their answers are
  attributes of the model records or unknown functions in `Env`.
- Interceptors.OverrideIndexIsTablePosition: this is stated for a regular subject only.
  Every forwarded constructor and every overridden virtual must have min ≤ max and be
  available, and no overridden virtual may be a destructor. The front end's slot
  numbering is only claimed under those conditions.
- Interceptors.OverrideIndexIsTablePosition: it also assumes the interceptor class is not
  abstract. `generateEntry` passes `Utils.isAbstract` of the class
  (src/griffin/backend/robin/CodeGenerator.java:1008), and an interceptor is abstract when
  its subject has a private pure virtual method, which `createInterceptor` does not
  override (712-714). The scope table of an abstract class leaves out the constructors
  (1783), while the slot counter counted the forwarded ones (685, 695), so every slot then
  points past its line. Such a class has no registered constructor and cannot be
  instantiated, so no callback runs through those slots; the model claims nothing there.
- Interceptors.RequestForInterceptor: the model does not build the `I<name>` aggregate
  that `generateInterceptors` adds to the subjects (820-823). The request's routines,
  single public base and non-abstractness are assumed of the request, not derived from
  that aggregate.
- Wrappers.CastsFor: `Utils.isPolymorphic(base)` (CodeGenerator.java:1657) may throw
  `MissingInformationException`. The model reads it as the plain attribute
  `basePolymorphic` and has no error path for it.
- Interceptors.TableLineOf: this needs the interceptor's table to have exactly one public
  base, which is the subject.
- Synthesized routines (`_init`, `_py`, the default constructor, clones): the model
  assumes `Filters.isAvailable` holds for them. It also assumes their full names are
  `I<name>::<member>` and that the default constructor is a constructor.
- Duplicate interceptors: `investInterceptor` and `autoInvestInterceptor` append to
  `m_interceptors` without a duplicate check (CodeGenerator.java:160, 173), so a subject
  can be listed twice and get two interceptor classes. The generator gives each its own
  synthesized objects. The model derives their ids from the subject, so two interceptors
  of one subject share them and their accessor and wrapper names coincide. Nothing is
  claimed for that case.
- `new Type(null)` and other null dereferences are modelled as error results. Exceptions
  thrown by collaborators are modelled as `Err` results of the `Env` deductions.
- The balanced bracket structure of the written C++ text is not stated.
