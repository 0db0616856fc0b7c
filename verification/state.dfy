/** The mutable state of a `CodeGenerator`, threaded explicitly: the `uid` table, the set
    of routines the interceptors implement in the front end (`m_interceptorMethods`), and
    the registration lines accumulated for the end of `entry[]` (`m_downCasters`,
    `m_entry`). */
module State {
  import opened Model
  import opened Identity

  datatype GenState = GenState(
    uids: UidState<ObjId>,
    interceptorMethods: set<ObjId>,
    downCasters: seq<RegLine>,
    entry: seq<RegLine>)

  /** The state the constructor leaves. */
  function Start(): GenState
  {
    GenState(Initial(), {}, [], [])
  }

  /** `h` follows `g`: numbers are kept, the interceptor-method set only grows and the
      accumulated lines are only appended to. */
  ghost predicate Later(g: GenState, h: GenState)
  {
    && Extends(g.uids, h.uids)
    && g.interceptorMethods <= h.interceptorMethods
    && g.downCasters <= h.downCasters
    && g.entry <= h.entry
  }

  lemma LaterReflexive(g: GenState)
    ensures Later(g, g)
  {
  }

  lemma LaterTransitive(a: GenState, b: GenState, c: GenState)
    requires Later(a, b) && Later(b, c)
    ensures Later(a, c)
  {
  }

  /** `uid(o)` on the generator state. */
  function Number(g: GenState, o: ObjId): (r: (nat, GenState))
    ensures Later(g, r.1)
    ensures o in r.1.uids.ids && r.1.uids.ids[o] == r.0
    ensures r.1 == g.(uids := r.1.uids)
  {
    var (n, u) := Uid(g.uids, o);
    (n, g.(uids := u))
  }

  /** Numbering keeps the table well formed. */
  lemma NumberValid(g: GenState, o: ObjId)
    requires Valid(g.uids)
    ensures Valid(Number(g, o).1.uids)
  {
    UidValid(g.uids, o);
  }

  /** Once an object is numbered, asking again in any later state gives the same number
      and changes nothing: this is what makes a name computed while writing a wrapper
      agree with the same name computed while writing the tables. */
  lemma NumberStable(g: GenState, h: GenState, o: ObjId)
    requires o in g.uids.ids && Later(g, h)
    ensures Number(h, o) == (g.uids.ids[o], h)
  {
  }
}
