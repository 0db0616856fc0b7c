/** The identity service: `CodeGenerator.uid`, a memo table from objects to
    integers handed out in first-seen order starting at 1 (the constructor starts the
    counter at 0 with an empty map). All generated symbol names are built from it. */
module Identity {

  datatype UidState<K> = UidState(ids: map<K, nat>, next: nat)

  /** The state the constructor leaves: empty map, counter 0. */
  function Initial<K>(): UidState<K>
  {
    UidState(map[], 0)
  }

  /** The table holds exactly `next` objects, numbered 1..next without repetition. */
  ghost predicate Valid<K>(s: UidState<K>)
  {
    && s.next == |s.ids|
    && (forall k :: k in s.ids ==> 1 <= s.ids[k] <= s.next)
    && (forall a, b :: a in s.ids && b in s.ids && s.ids[a] == s.ids[b] ==> a == b)
  }

  /** `t` is a later state of the same table: nothing seen in `s` changes its number. */
  ghost predicate Extends<K>(s: UidState<K>, t: UidState<K>)
  {
    forall k :: k in s.ids ==> k in t.ids && t.ids[k] == s.ids[k]
  }

  lemma ExtendsTransitive<K>(a: UidState<K>, b: UidState<K>, c: UidState<K>)
    requires Extends(a, b) && Extends(b, c)
    ensures Extends(a, c)
  {
  }

  lemma InitialValid<K>()
    ensures Valid(Initial<K>())
  {
  }

  /** `uid(o)`: the number of `o`, assigning the next one when `o` is new. */
  function Uid<K(==)>(s: UidState<K>, o: K): (r: (nat, UidState<K>))
    ensures Extends(s, r.1)
    ensures o in r.1.ids && r.1.ids[o] == r.0
    ensures o in s.ids ==> r.1 == s
    ensures o !in s.ids ==> r.0 == s.next + 1 && r.1.next == s.next + 1
  {
    if o in s.ids then (s.ids[o], s)
    else
      var n := s.next + 1;
      (n, UidState(s.ids[o := n], n))
  }

  /** `uid` keeps the table well formed. */
  lemma UidValid<K>(s: UidState<K>, o: K)
    requires Valid(s)
    ensures Valid(Uid(s, o).1)
  {
  }

  /** `uid` adds at most the object it is asked about. */
  lemma UidKeys<K>(s: UidState<K>, o: K)
    ensures Uid(s, o).1.ids.Keys == s.ids.Keys + {o}
  {
  }

  /** Numbering a sequence of objects in order, one `uid` call each. */
  function UidAll<K(==)>(s: UidState<K>, os: seq<K>): (r: (seq<nat>, UidState<K>))
    ensures |r.0| == |os|
    decreases |os|
  {
    if |os| == 0 then ([], s)
    else
      var first := Uid(s, os[0]);
      var rest := UidAll(first.1, os[1..]);
      ([first.0] + rest.0, rest.1)
  }

  /** Numbering a sequence keeps the table valid and keeps every earlier number. */
  lemma {:induction false} UidAllExtends<K>(s: UidState<K>, os: seq<K>)
    ensures Extends(s, UidAll(s, os).1)
    ensures Valid(s) ==> Valid(UidAll(s, os).1)
    decreases |os|
  {
    if |os| > 0 {
      var first := Uid(s, os[0]);
      if Valid(s) {
        UidValid(s, os[0]);
      }
      UidAllExtends(first.1, os[1..]);
      ExtendsTransitive(s, first.1, UidAll(first.1, os[1..]).1);
    }
  }

  /** After numbering a sequence the table knows exactly the old objects and the
      objects of the sequence. */
  lemma {:induction false} UidAllKeys<K>(s: UidState<K>, os: seq<K>)
    ensures UidAll(s, os).1.ids.Keys == s.ids.Keys + (set o | o in os)
    decreases |os|
  {
    if |os| > 0 {
      var first := Uid(s, os[0]);
      UidAllKeys(first.1, os[1..]);
      UidKeys(s, os[0]);
      assert (set o | o in os) == {os[0]} + (set o | o in os[1..]);
    }
  }

  /** Each position of a numbered sequence reports the number its object ends up with. */
  lemma {:induction false} UidAllPositions<K>(s: UidState<K>, os: seq<K>)
    ensures forall i :: 0 <= i < |os| ==>
              os[i] in UidAll(s, os).1.ids && UidAll(s, os).1.ids[os[i]] == UidAll(s, os).0[i]
    decreases |os|
  {
    if |os| > 0 {
      var first := Uid(s, os[0]);
      var rest := UidAll(first.1, os[1..]);
      UidAllPositions(first.1, os[1..]);
      UidAllExtends(first.1, os[1..]);
      var r := UidAll(s, os);
      assert r.0 == [first.0] + rest.0 && r.1 == rest.1;
      forall i | 0 <= i < |os|
        ensures os[i] in r.1.ids && r.1.ids[os[i]] == r.0[i]
      {
        if i > 0 {
          assert os[i] == os[1..][i - 1];
        }
      }
    }
  }

  /** Numbering `a + b` is numbering `a`, then numbering `b` from where `a` left off. */
  lemma {:induction false} UidAllAppend<K>(s: UidState<K>, a: seq<K>, b: seq<K>)
    ensures UidAll(s, a + b).1 == UidAll(UidAll(s, a).1, b).1
    ensures UidAll(s, a + b).0 == UidAll(s, a).0 + UidAll(UidAll(s, a).1, b).0
    decreases |a|
  {
    if |a| == 0 {
      assert a + b == b;
    } else {
      var first := Uid(s, a[0]);
      assert (a + b)[0] == a[0];
      assert (a + b)[1..] == a[1..] + b;
      UidAllAppend(first.1, a[1..], b);
    }
  }

  /** The same object always gets the same number, distinct objects distinct numbers. */
  lemma UidAllSameIffEqual<K>(os: seq<K>, i: nat, j: nat)
    requires i < |os| && j < |os|
    ensures UidAll(Initial(), os).0[i] == UidAll(Initial(), os).0[j] <==> os[i] == os[j]
  {
    InitialValid<K>();
    UidAllExtends(Initial(), os);
    UidAllPositions(Initial(), os);
  }

  /** The k-th previously unseen object receives k: an object met for the first time at
      position `i` is numbered one more than the count of distinct objects before it. */
  lemma FirstSeenRank<K>(os: seq<K>, i: nat)
    requires i < |os| && os[i] !in os[..i]
    ensures UidAll(Initial(), os).0[i] == |set o | o in os[..i]| + 1
  {
    var s0 := Initial<K>();
    InitialValid<K>();
    assert os == os[..i] + os[i..];
    UidAllAppend(s0, os[..i], os[i..]);
    var sp := UidAll(s0, os[..i]).1;
    UidAllKeys(s0, os[..i]);
    UidAllExtends(s0, os[..i]);
    assert sp.ids.Keys == set o | o in os[..i];
    assert os[i..][0] == os[i];
    assert UidAll(s0, os).0[i] == UidAll(sp, os[i..]).0[0];
    assert os[i] !in sp.ids;
    assert |sp.ids| == |sp.ids.Keys|;
  }
}
