/** Newest-first lists of ids: what ORDER BY id DESC returns, and how cursors cut it. */
module NewestFirst {
  import opened Schema

  function Below(ids: set<Id>, cursor: Id): set<Id> {
    set id | id in ids && id < cursor
  }

  function Above(ids: set<Id>, cursor: Id): set<Id> {
    set id | id in ids && id > cursor
  }

  predicate IsNewest(id: Id, ids: set<Id>) {
    id in ids && forall other | other in ids :: other <= id
  }

  method Newest(ids: set<Id>) returns (id: Id)
    requires ids != {}
    ensures IsNewest(id, ids)
  {
    id :| id in ids;
    var rest := ids - {id};
    while rest != {}
      invariant id in ids && rest <= ids
      invariant forall other | other in ids && other !in rest :: other <= id
    {
      var other :| other in rest;
      rest := rest - {other};
      if other > id {
        id := other;
      }
    }
  }

  method Oldest(ids: set<Id>) returns (id: Id)
    requires ids != {}
    ensures id in ids && forall other | other in ids :: id <= other
  {
    id :| id in ids;
    var rest := ids - {id};
    while rest != {}
      invariant id in ids && rest <= ids
      invariant forall other | other in ids && other !in rest :: id <= other
    {
      var other :| other in rest;
      rest := rest - {other};
      if other < id {
        id := other;
      }
    }
  }

  lemma {:induction false} NewestExists(ids: set<Id>)
    requires ids != {}
    ensures exists id :: IsNewest(id, ids)
  {
    var some :| some in ids;
    if ids == {some} {
      assert IsNewest(some, ids);
    } else {
      NewestExists(ids - {some});
      var id :| IsNewest(id, ids - {some});
      var newest := if some > id then some else id;
      forall other | other in ids ensures other <= newest {
        assert other == some || other in ids - {some};
      }
      assert IsNewest(newest, ids);
    }
  }

  lemma {:induction false} SubsetSize(a: set<Id>, b: set<Id>)
    requires a <= b
    ensures |a| <= |b|
  {
    if a != {} {
      var x :| x in a;
      SubsetSize(a - {x}, b - {x});
    }
  }

  predicate Descending(q: seq<Id>) {
    forall i, j | 0 <= i < j < |q| :: q[i] > q[j]
  }

  // q is ids, newest first, each once
  ghost predicate Lists(q: seq<Id>, ids: set<Id>) {
    && Descending(q)
    && |q| == |ids|
    && forall id :: id in q <==> id in ids
  }

  lemma ConsLists(id: Id, rest: seq<Id>, ids: set<Id>)
    requires IsNewest(id, ids) && Lists(rest, ids - {id})
    ensures Lists([id] + rest, ids)
  {
    var q := [id] + rest;
    forall i, j | 0 <= i < j < |q| ensures q[i] > q[j] {
      assert q[j] == rest[j - 1] && rest[j - 1] in ids - {id};
    }
    forall other ensures other in q <==> other in ids {
      assert other in q <==> other == id || other in rest;
    }
  }

  // ORDER BY id DESC
  ghost function Desc(ids: set<Id>): seq<Id> {
    if ids == {} then []
    else
      NewestExists(ids);
      var id :| IsNewest(id, ids);
      [id] + Desc(ids - {id})
  }

  lemma DescUnfolds(ids: set<Id>) returns (id: Id)
    requires ids != {}
    ensures IsNewest(id, ids) && Desc(ids) == [id] + Desc(ids - {id})
  {
    NewestExists(ids);
    id :| IsNewest(id, ids) && Desc(ids) == [id] + Desc(ids - {id});
  }

  lemma {:induction false} DescLists(ids: set<Id>)
    ensures Lists(Desc(ids), ids)
  {
    if ids != {} {
      var id := DescUnfolds(ids);
      DescLists(ids - {id});
      ConsLists(id, Desc(ids - {id}), ids);
    }
  }

  lemma DescSize(ids: set<Id>)
    ensures |Desc(ids)| == |ids|
  {
    DescLists(ids);
  }

  lemma DescOfOne(ids: set<Id>, id: Id)
    ensures Desc(if id in ids then {id} else {}) == if id in ids then [id] else []
  {
    DescLists({});
    DescLists({id});
  }

  // A newest-first list is determined by its ids.
  lemma {:induction false} ListIsUnique(q: seq<Id>, q': seq<Id>, ids: set<Id>)
    requires Descending(q) && (forall id :: id in q <==> id in ids)
    requires Descending(q') && (forall id :: id in q' <==> id in ids)
    ensures q == q'
  {
    assert q != [] ==> q[0] in q';
    assert q' != [] ==> q'[0] in q;
    if q != [] {
      assert q[0] == q'[0];
      assert forall id :: id in q[1..] <==> id in ids - {q[0]};
      assert forall id :: id in q'[1..] <==> id in ids - {q[0]};
      ListIsUnique(q[1..], q'[1..], ids - {q[0]});
    }
  }

  lemma ListIsDesc(q: seq<Id>, ids: set<Id>)
    requires Descending(q) && (forall id :: id in q <==> id in ids)
    ensures q == Desc(ids)
  {
    DescLists(ids);
    ListIsUnique(q, Desc(ids), ids);
  }

  // The newest id heads the list.
  lemma DescStep(id: Id, ids: set<Id>)
    requires IsNewest(id, ids)
    ensures Desc(ids) == [id] + Desc(ids - {id})
  {
    DescLists(ids - {id});
    ConsLists(id, Desc(ids - {id}), ids);
    ListIsDesc([id] + Desc(ids - {id}), ids);
  }

  // When every id of one set is newer than every id of another, the lists follow each other.
  lemma DescSplits(newer: set<Id>, older: set<Id>)
    requires forall a, b | a in newer && b in older :: a > b
    ensures Desc(newer + older) == Desc(newer) + Desc(older)
  {
    DescLists(newer);
    DescLists(older);
    var q := Desc(newer) + Desc(older);
    forall i, j | 0 <= i < j < |q| ensures q[i] > q[j] {
      if i < |Desc(newer)| <= j {
        assert Desc(newer)[i] in newer && Desc(older)[j - |Desc(newer)|] in older;
      }
    }
    forall id ensures id in q <==> id in newer + older {
      assert id in q <==> id in Desc(newer) || id in Desc(older);
    }
    ListIsDesc(q, newer + older);
  }

  // The ids below the i-th one are the rest of the list.
  lemma BelowIsSuffix(ids: set<Id>, i: nat)
    requires i < |Desc(ids)|
    ensures Desc(Below(ids, Desc(ids)[i])) == Desc(ids)[i + 1..]
  {
    DescLists(ids);
    var q := Desc(ids);
    forall id ensures id in q[i + 1..] <==> id in Below(ids, q[i]) {
      if id in Below(ids, q[i]) {
        var j :| 0 <= j < |q| && q[j] == id;
        assert j > i;
        assert q[i + 1..][j - i - 1] == id;
      }
    }
    ListIsDesc(q[i + 1..], Below(ids, q[i]));
  }

  lemma AboveIsPrefix(ids: set<Id>, i: nat)
    requires i < |Desc(ids)|
    ensures Desc(Above(ids, Desc(ids)[i])) == Desc(ids)[..i]
  {
    DescLists(ids);
    var q := Desc(ids);
    forall id ensures id in q[..i] <==> id in Above(ids, q[i]) {
      if id in Above(ids, q[i]) {
        var j :| 0 <= j < |q| && q[j] == id;
        assert j < i;
        assert q[..i][j] == id;
      }
    }
    ListIsDesc(q[..i], Above(ids, q[i]));
  }

  function Take<T>(q: seq<T>, limit: nat): seq<T> {
    if |q| <= limit then q else q[..limit]
  }

  function Reverse<T>(q: seq<T>): seq<T> {
    if q == [] then [] else Reverse(q[1..]) + [q[0]]
  }

  lemma {:induction false} ReverseConcat<T>(a: seq<T>, b: seq<T>)
    ensures Reverse(a + b) == Reverse(b) + Reverse(a)
  {
    if a == [] {
      assert a + b == b;
    } else {
      ReverseConcat(a[1..], b);
      assert (a + b)[1..] == a[1..] + b;
    }
  }

  lemma {:induction false} ReverseLength<T>(q: seq<T>)
    ensures |Reverse(q)| == |q|
  {
    if q == [] {
    } else {
      ReverseLength(q[1..]);
    }
  }
}
