/** The LRU list and the index into it, as the store keeps them: a list of
    elements with an identity of their own, and a map from ids to elements. */
module LruLinks {
  import opened Prelude
  import opened Store

  /** An element of the LRU list; `address` is its identity. */
  datatype Element = Element(address: nat, correlationID: Id)

  /** `pushes` is how many elements PushBack has allocated. */
  datatype Links = Links(list: seq<Element>, index: map<Id, Element>, pushes: nat)

  function Ids(list: seq<Element>): (r: seq<Id>)
    ensures |r| == |list|
  {
    if list == [] then [] else [list[0].correlationID] + Ids(list[1..])
  }

  /** list.Remove: the list without one of its elements. */
  function Unlink(list: seq<Element>, elem: Element): seq<Element> {
    if list == [] then [] else (if list[0] == elem then [] else [list[0]]) + Unlink(list[1..], elem)
  }

  lemma {:induction false} IdsAt(list: seq<Element>, k: nat)
    requires k < |list|
    ensures Ids(list)[k] == list[k].correlationID
  {
    if k > 0 {
      IdsAt(list[1..], k - 1);
    }
  }

  lemma {:induction false} IdsAppend(list: seq<Element>, elem: Element)
    ensures Ids(list + [elem]) == Ids(list) + [elem.correlationID]
  {
    if list != [] {
      IdsAppend(list[1..], elem);
      assert (list + [elem])[1..] == list[1..] + [elem];
    }
  }

  lemma {:induction false} IdsUnlink(list: seq<Element>, elem: Element)
    requires forall e :: e in list ==> (e.correlationID == elem.correlationID <==> e == elem)
    ensures Ids(Unlink(list, elem)) == Without(Ids(list), elem.correlationID)
  {
    if list != [] {
      IdsUnlink(list[1..], elem);
      assert list[0] in list;
      WithoutCons(list[0].correlationID, Ids(list[1..]), elem.correlationID);
      var rest := Unlink(list[1..], elem);
      assert ([list[0]] + rest)[1..] == rest && [] + rest == rest;
    }
  }

  lemma WithoutCons(x: Id, ids: seq<Id>, id: Id)
    ensures Without([x] + ids, id) == (if x == id then [] else [x]) + Without(ids, id)
  {
    assert ([x] + ids)[1..] == ids;
  }

  lemma {:induction false} WithoutAbsent(ids: seq<Id>, id: Id)
    requires id !in ids
    ensures Without(ids, id) == ids
  {
    if ids != [] {
      WithoutAbsent(ids[1..], id);
      assert Without(ids, id) == [ids[0]] + Without(ids[1..], id);
    }
  }

  lemma {:induction false} IdsElement(list: seq<Element>, id: Id)
    requires id in Ids(list)
    ensures exists e :: e in list && e.correlationID == id
  {
    if id != list[0].correlationID {
      IdsElement(list[1..], id);
    }
  }

  lemma {:induction false} UnlinkElements(list: seq<Element>, elem: Element, e: Element)
    ensures e in Unlink(list, elem) <==> e in list && e != elem
  {
    if list != [] {
      UnlinkElements(list[1..], elem, e);
      assert e in list <==> e == list[0] || e in list[1..];
    }
  }

  /** The index leads from ids to their list entries and back. */
  ghost predicate Linked(list: seq<Element>, index: map<Id, Element>) {
    && (forall id :: id in index ==> index[id] in list && index[id].correlationID == id)
    && (forall e :: e in list ==> e.correlationID in index && index[e.correlationID] == e)
  }

  lemma IndexedIds(list: seq<Element>, index: map<Id, Element>, id: Id)
    requires Linked(list, index)
    ensures id in Ids(list) <==> id in index
  {
    if id in Ids(list) {
      IdsElement(list, id);
    }
    if id in index {
      var k :| 0 <= k < |list| && list[k] == index[id];
      IdsAt(list, k);
    }
  }

  /** Unlinking an indexed element removes its id and nothing else. */
  lemma Unlinked(list: seq<Element>, index: map<Id, Element>, id: Id)
    requires Linked(list, index) && id in index
    ensures Ids(Unlink(list, index[id])) == Without(Ids(list), id)
    ensures forall e :: e in Unlink(list, index[id]) <==> e in list && e.correlationID != id
  {
    var elem := index[id];
    forall e ensures e in Unlink(list, elem) <==> e in list && e.correlationID != id {
      UnlinkElements(list, elem, e);
    }
    IdsUnlink(list, elem);
  }

  lemma RemoveLinked(list: seq<Element>, index: map<Id, Element>, id: Id)
    requires Linked(list, index) && id in index
    ensures Linked(Unlink(list, index[id]), index - {id})
  {
    Unlinked(list, index, id);
  }

  lemma MoveLinked(list: seq<Element>, index: map<Id, Element>, id: Id)
    requires Linked(list, index) && id in index
    ensures Linked(Unlink(list, index[id]) + [index[id]], index)
  {
    Unlinked(list, index, id);
    forall other | other in index ensures index[other] in Unlink(list, index[id]) + [index[id]] {
    }
  }

  lemma PushLinked(list: seq<Element>, index: map<Id, Element>, elem: Element)
    requires Linked(list, index) && elem.correlationID !in index
    ensures Linked(list + [elem], index[elem.correlationID := elem])
  {
  }

  // What the sections under the write lock do to them

  function PushBack(l: Links, id: Id): Links {
    var elem := Element(l.pushes, id);
    Links(l.list + [elem], l.index[id := elem], l.pushes + 1)
  }

  function Remove(l: Links, id: Id): Links {
    if id in l.index then Links(Unlink(l.list, l.index[id]), l.index - {id}, l.pushes) else l
  }

  function MoveToBack(l: Links, id: Id): Links {
    if id in l.index then l.(list := Unlink(l.list, l.index[id]) + [l.index[id]]) else l
  }

  /** The list and the index are sound and hold the ids `lru` in this order. */
  ghost predicate Holds(l: Links, lru: seq<Id>) {
    Linked(l.list, l.index) && Ids(l.list) == lru
  }

  lemma PushBackHolds(l: Links, lru: seq<Id>, id: Id)
    requires Holds(l, lru) && id !in lru
    ensures Holds(PushBack(l, id), lru + [id])
  {
    IndexedIds(l.list, l.index, id);
    PushLinked(l.list, l.index, Element(l.pushes, id));
    IdsAppend(l.list, Element(l.pushes, id));
  }

  lemma RemoveHolds(l: Links, lru: seq<Id>, id: Id)
    requires Holds(l, lru)
    ensures Holds(Remove(l, id), Without(lru, id))
  {
    if id in l.index {
      Unlinked(l.list, l.index, id);
      RemoveLinked(l.list, l.index, id);
    } else {
      IndexedIds(l.list, l.index, id);
      WithoutAbsent(lru, id);
    }
  }

  lemma MoveToBackHolds(l: Links, lru: seq<Id>, id: Id)
    requires Holds(l, lru)
    ensures Holds(MoveToBack(l, id), if id in lru then Without(lru, id) + [id] else lru)
  {
    IndexedIds(l.list, l.index, id);
    if id in l.index {
      Unlinked(l.list, l.index, id);
      MoveLinked(l.list, l.index, id);
      IdsAppend(Unlink(l.list, l.index[id]), l.index[id]);
    }
  }

  /** No id twice, so no element twice. */
  lemma DistinctElements(l: Links, lru: seq<Id>)
    requires Holds(l, lru) && NoDup(lru)
    ensures NoDup(l.list)
  {
    forall i, j | 0 <= i < j < |l.list| ensures l.list[i] != l.list[j] {
      IdsAt(l.list, i);
      IdsAt(l.list, j);
    }
  }
}
