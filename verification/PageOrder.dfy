/** Pages in either order, row by row: which rows a limit lets through, and which of them a filter keeps. */
module PageOrder {
  import opened Schema
  import opened NewestFirst

  // x comes before y, newest first or oldest first
  predicate Before(x: Id, y: Id, newestFirst: bool) {
    if newestFirst then x > y else x < y
  }

  predicate Ordered(q: seq<Id>, newestFirst: bool) {
    forall i, j | 0 <= i < j < |q| :: Before(q[i], q[j], newestFirst)
  }

  // The ids that come before a given one
  function Ahead(ids: set<Id>, id: Id, newestFirst: bool): set<Id> {
    set x | x in ids && Before(x, id, newestFirst)
  }

  lemma {:induction false} OrderedSize(q: seq<Id>, ids: set<Id>, newestFirst: bool)
    requires Ordered(q, newestFirst) && forall id :: id in q <==> id in ids
    ensures |q| == |ids|
  {
    if q == [] {
      assert forall id | id in ids :: id in q;
      assert ids == {};
    } else {
      assert q[0] in q;
      assert forall id :: id in q[1..] <==> id in ids - {q[0]};
      OrderedSize(q[1..], ids - {q[0]}, newestFirst);
    }
  }

  // A limit lets a row through exactly if fewer rows than the limit come before it.
  lemma TakenByRank(q: seq<Id>, ids: set<Id>, newestFirst: bool, limit: nat, id: Id)
    requires Ordered(q, newestFirst) && forall x :: x in q <==> x in ids
    ensures id in Take(q, limit) <==> id in ids && |Ahead(ids, id, newestFirst)| < limit
  {
    if id in q {
      var i :| 0 <= i < |q| && q[i] == id;
      AheadIsPrefix(q, ids, newestFirst, i);
      OrderedSize(q[..i], Ahead(ids, id, newestFirst), newestFirst);
      if i < limit {
        assert Take(q, limit)[i] == id;
      } else {
        assert forall k | 0 <= k < |Take(q, limit)| :: Before(q[k], q[i], newestFirst);
      }
    }
  }

  lemma AheadIsPrefix(q: seq<Id>, ids: set<Id>, newestFirst: bool, i: nat)
    requires Ordered(q, newestFirst) && i < |q| && forall x :: x in q <==> x in ids
    ensures forall x :: x in q[..i] <==> x in Ahead(ids, q[i], newestFirst)
  {
    forall x | x in Ahead(ids, q[i], newestFirst) ensures x in q[..i] {
      var k :| 0 <= k < |q| && q[k] == x;
      assert k < i;
      assert q[..i][k] == x;
    }
  }

  lemma DescIsOrdered(ids: set<Id>)
    ensures Ordered(Desc(ids), true) && forall id :: id in Desc(ids) <==> id in ids
    ensures Ordered(Reverse(Desc(ids)), false) && forall id :: id in Reverse(Desc(ids)) <==> id in ids
  {
    DescLists(ids);
    ReverseTurns(Desc(ids));
  }

  lemma {:induction false} ReverseTurns(q: seq<Id>)
    requires Ordered(q, true)
    ensures Ordered(Reverse(q), false) && forall id :: id in Reverse(q) <==> id in q
  {
    if q == [] {
    } else {
      ReverseTurns(q[1..]);
      var rest := Reverse(q[1..]);
      forall i | 0 <= i < |rest| ensures rest[i] < q[0] {
        assert rest[i] in q[1..];
      }
    }
  }

  // The ids of q that are not deleted, in order
  function Alive(q: seq<Id>, dead: set<Id>): seq<Id> {
    if q == [] then [] else (if q[0] in dead then [] else [q[0]]) + Alive(q[1..], dead)
  }

  lemma {:induction false} AliveMembers(q: seq<Id>, dead: set<Id>)
    ensures forall id :: id in Alive(q, dead) <==> id in q && id !in dead
  {
    if q == [] {
    } else {
      AliveMembers(q[1..], dead);
      assert forall id :: id in q <==> id == q[0] || id in q[1..];
    }
  }

  lemma {:induction false} AliveOrdered(q: seq<Id>, dead: set<Id>, newestFirst: bool)
    requires Ordered(q, newestFirst)
    ensures Ordered(Alive(q, dead), newestFirst)
  {
    if q == [] {
    } else {
      AliveOrdered(q[1..], dead, newestFirst);
      AliveMembers(q[1..], dead);
      var rest := Alive(q[1..], dead);
      forall i | 0 <= i < |rest| ensures Before(q[0], rest[i], newestFirst) {
        assert rest[i] in q[1..];
      }
    }
  }

  lemma CutByOrder(p: seq<Id>, newestFirst: bool, cut: nat, id: Id)
    requires Ordered(p, newestFirst) && id in p
    ensures id in Take(p, cut) ||
            (|Take(p, cut)| == cut && forall x | x in Take(p, cut) :: Before(x, id, newestFirst))
  {
    var i :| 0 <= i < |p| && p[i] == id;
    if i < cut {
      assert Take(p, cut)[i] == id;
    }
  }

  // The first cut live rows among the first fetch rows
  ghost predicate FirstLive(page: seq<Id>, ids: set<Id>, dead: set<Id>, newestFirst: bool, fetch: nat, cut: nat) {
    && Ordered(page, newestFirst) && |page| <= cut
    && (forall id | id in page :: id in ids && id !in dead && |Ahead(ids, id, newestFirst)| < fetch)
    && (forall id | id in ids && id !in dead && |Ahead(ids, id, newestFirst)| < fetch ::
          id in page || (|page| == cut && forall x | x in page :: Before(x, id, newestFirst)))
  }

  lemma PageIsFirstLive(q: seq<Id>, ids: set<Id>, dead: set<Id>, newestFirst: bool, fetch: nat, cut: nat)
    requires Ordered(q, newestFirst) && forall x :: x in q <==> x in ids
    ensures FirstLive(Take(Alive(Take(q, fetch), dead), cut), ids, dead, newestFirst, fetch, cut)
  {
    var alive := Alive(Take(q, fetch), dead);
    AliveMembers(Take(q, fetch), dead);
    AliveOrdered(Take(q, fetch), dead, newestFirst);
    forall id
      ensures id in alive <==> id in ids && id !in dead && |Ahead(ids, id, newestFirst)| < fetch
    {
      TakenByRank(q, ids, newestFirst, fetch, id);
    }
    forall id | id in alive
      ensures id in Take(alive, cut) ||
              (|Take(alive, cut)| == cut && forall x | x in Take(alive, cut) :: Before(x, id, newestFirst))
    {
      CutByOrder(alive, newestFirst, cut, id);
    }
  }

  function Members(q: seq<Id>): set<Id> {
    set id | id in q
  }

  lemma {:induction false} OrderedIsUnique(p: seq<Id>, q: seq<Id>, newestFirst: bool)
    requires Ordered(p, newestFirst) && Ordered(q, newestFirst) && forall id :: id in p <==> id in q
    ensures p == q
  {
    assert p != [] ==> p[0] in q;
    assert q != [] ==> q[0] in p;
    if p == [] {
    } else {
      assert p[0] == q[0];
      assert forall id :: id in p[1..] <==> id in p && id != p[0];
      assert forall id :: id in q[1..] <==> id in q && id != q[0];
      OrderedIsUnique(p[1..], q[1..], newestFirst);
    }
  }

  lemma FirstLiveIncludes(p: seq<Id>, q: seq<Id>, ids: set<Id>, dead: set<Id>, newestFirst: bool, fetch: nat, cut: nat)
    requires FirstLive(p, ids, dead, newestFirst, fetch, cut) && FirstLive(q, ids, dead, newestFirst, fetch, cut)
    ensures forall id | id in p :: id in q
  {
    OrderedSize(p, Members(p), newestFirst);
    OrderedSize(q, Members(q), newestFirst);
    forall id | id in p ensures id in q {
      assert id in q || (|q| == cut && forall x | x in q :: Before(x, id, newestFirst));
      assert forall x | x in q :: x in p || Before(id, x, newestFirst);
      if id !in q {
        SubsetSize(Members(q) + {id}, Members(p));
      }
    }
  }

  // There is only one such page.
  lemma FirstLiveIsUnique(p: seq<Id>, q: seq<Id>, ids: set<Id>, dead: set<Id>, newestFirst: bool, fetch: nat, cut: nat)
    requires FirstLive(p, ids, dead, newestFirst, fetch, cut) && FirstLive(q, ids, dead, newestFirst, fetch, cut)
    ensures p == q
  {
    FirstLiveIncludes(p, q, ids, dead, newestFirst, fetch, cut);
    FirstLiveIncludes(q, p, ids, dead, newestFirst, fetch, cut);
    OrderedIsUnique(p, q, newestFirst);
  }
}
