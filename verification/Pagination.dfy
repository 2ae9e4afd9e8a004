/** UserService.List: live users matching the filters, newest id first, a page at a time. The
    status and LIKE filters are one predicate on rows. */
module Pagination {
  import opened Models
  import opened Panel

  predicate IsMax(id: nat, ids: set<nat>) {
    id in ids && forall x :: x in ids ==> x <= id
  }

  lemma {:induction false} MaxExists(ids: set<nat>) returns (id: nat)
    requires ids != {}
    ensures IsMax(id, ids)
  {
    id :| id in ids;
    assert ids == {id} + (ids - {id});
    if ids != {id} {
      var m := MaxExists(ids - {id});
      if m > id {
        id := m;
      }
    }
  }

  function Max(ids: set<nat>): (id: nat)
    requires ids != {}
    ensures IsMax(id, ids)
  {
    assert exists id :: IsMax(id, ids) by {
      var id := MaxExists(ids);
    }
    var id :| id in ids && IsMax(id, ids);
    id
  }

  /** ORDER BY id DESC. */
  function Descending(ids: set<nat>): (s: seq<nat>)
    ensures forall id :: id in s <==> id in ids
    ensures |s| == |ids|
  {
    if ids == {} then []
    else
      var m := Max(ids);
      assert ids == {m} + (ids - {m});
      [m] + Descending(ids - {m})
  }

  function Matching(db: DB, filter: User -> bool): set<nat> {
    set id | id in db.users && !db.users[id].deleted && filter(db.users[id])
  }

  function EffectiveLimit(limit: int): (n: nat)
    ensures 1 <= n <= 200
  {
    if limit <= 0 || limit > 200 then 50 else limit
  }

  /** OFFSET and LIMIT on a result; an offset that is not positive is none. */
  function Slice(s: seq<nat>, offset: int, limit: nat): seq<nat> {
    var from := if offset <= 0 then 0 else if offset > |s| then |s| else offset;
    var to := if from + limit > |s| then |s| else from + limit;
    s[from..to]
  }

  /** A page of ids and the total count. */
  function List(db: DB, filter: User -> bool, offset: int, limit: int): (seq<nat>, nat) {
    (Slice(Descending(Matching(db, filter)), offset, EffectiveLimit(limit)), |Matching(db, filter)|)
  }

  /** One page, then the next at an offset larger by step, until the total is reached. */
  function CollectFrom(page: nat -> seq<nat>, step: nat, total: nat, offset: nat): seq<nat>
    requires step > 0
    decreases total - offset
  {
    if offset >= total then [] else page(offset) + CollectFrom(page, step, total, offset + step)
  }

  /** What a client collects that pages through the result by the effective limit, until the total
      reported with the first page is reached. */
  function Collect(db: DB, filter: User -> bool, limit: int): seq<nat> {
    CollectFrom(PageAt(db, filter, limit), EffectiveLimit(limit), List(db, filter, 0, limit).1, 0)
  }

  function PageAt(db: DB, filter: User -> bool, limit: int): nat -> seq<nat> {
    offset => List(db, filter, offset, limit).0
  }

  lemma {:induction false} DescendingIsSorted(ids: set<nat>)
    ensures forall a, b :: 0 <= a < b < |Descending(ids)| ==> Descending(ids)[a] > Descending(ids)[b]
  {
    if ids != {} {
      var m := Max(ids);
      var rest := Descending(ids - {m});
      DescendingIsSorted(ids - {m});
      assert forall b :: 0 <= b < |rest| ==> rest[b] in rest && rest[b] < m;
      assert Descending(ids) == [m] + rest;
    }
  }

  lemma SliceIsFront(s: seq<nat>, offset: nat, limit: nat)
    requires offset <= |s| && limit > 0
    ensures Slice(s, offset, limit) + (if offset + limit <= |s| then s[offset + limit..] else []) == s[offset..]
  {
  }

  /** The rest of the result from offset on. */
  function Rest(s: seq<nat>, offset: nat): seq<nat> {
    if offset <= |s| then s[offset..] else []
  }

  lemma {:induction false} CollectsRest(s: seq<nat>, page: nat -> seq<nat>, step: nat, offset: nat)
    requires step > 0 && forall o: nat :: page(o) == Slice(s, o, step)
    ensures CollectFrom(page, step, |s|, offset) == Rest(s, offset)
    decreases |s| - offset
  {
    if offset < |s| {
      CollectsRest(s, page, step, offset + step);
      SliceIsFront(s, offset, step);
    }
  }

  lemma CollectsAll(db: DB, filter: User -> bool, limit: int)
    ensures Collect(db, filter, limit) == Descending(Matching(db, filter))
  {
    CollectsRest(Descending(Matching(db, filter)), PageAt(db, filter, limit), EffectiveLimit(limit), 0);
  }

  /** All pages together list every matching live user exactly once, in descending id order, and
      as many as the total every page reports. */
  lemma PagesPartition(db: DB, filter: User -> bool, limit: int)
    ensures var all := Collect(db, filter, limit);
            && (forall id :: id in all <==> LiveUser(db, id) && filter(db.users[id]))
            && (forall a, b :: 0 <= a < b < |all| ==> all[a] > all[b])
            && (forall offset :: |all| == List(db, filter, offset, limit).1)
  {
    CollectsAll(db, filter, limit);
    DescendingIsSorted(Matching(db, filter));
  }

  /** A page is never longer than the effective limit, and is shorter only at the end. */
  lemma PageLength(db: DB, filter: User -> bool, offset: nat, limit: int)
    ensures var (page, total) := List(db, filter, offset, limit);
            |page| == if offset + EffectiveLimit(limit) <= total then EffectiveLimit(limit)
                      else if offset <= total then total - offset else 0
  {
  }

  /** The requested limit when it is from 1 to 200, else 50. */
  lemma LimitUsed(limit: int)
    ensures 1 <= limit <= 200 ==> EffectiveLimit(limit) == limit
    ensures limit <= 0 || limit > 200 ==> EffectiveLimit(limit) == 50
  {
  }
}
