/**
  The item record of the Zabbix 2.0 item API, the index of a list of items
  by key, and the two write-backs that the create and delete calls apply to
  the caller's items: assigning server ids by position, and clearing them.
 */
module Items {
  import opened Wire

  /** The applications an item belongs to; their type is not part of this model. */
  type Applications

  /**
    One monitored metric. `itemId` is empty until the server assigns one;
    `valueType` travels as a string, not as a `ValueType` code. The type,
    data type and delta are plain integers, as the server sends them: the
    named codes are the ones `Codes` decodes, but any other integer can
    arrive too.
   */
  datatype Item = Item(
    itemId: string,
    delay: int,
    hostId: string,
    interfaceId: string,
    key: string,
    name: string,
    itemType: int,
    valueType: string,
    lastValue: string,
    dataType: int,
    delta: int,
    description: string,
    error: string,
    history: int,
    trends: int,
    applications: Applications)

  /** No two of the first `n` items share a key. */
  ghost predicate DistinctKeysBefore(items: seq<Item>, n: nat)
    requires n <= |items|
  {
    forall i, j | 0 <= i < j < n :: items[i].key != items[j].key
  }

  /** The keys of the first `n` items. */
  ghost function KeysBefore(items: seq<Item>, n: nat): set<string>
    requires n <= |items|
  {
    set i | 0 <= i < n :: items[i].key
  }

  /** No two items of the list share a key. */
  ghost predicate DistinctKeys(items: seq<Item>)
  {
    DistinctKeysBefore(items, |items|)
  }

  /** One more item adds its key to the keys seen so far. */
  lemma KeysBeforeNext(items: seq<Item>, n: nat)
    requires n < |items|
    ensures KeysBefore(items, n + 1) == KeysBefore(items, n) + {items[n].key}
  {
  }

  /** An item whose key was not seen yet keeps the prefix distinct. */
  lemma DistinctKeysNext(items: seq<Item>, n: nat)
    requires n < |items|
    requires DistinctKeysBefore(items, n)
    requires items[n].key !in KeysBefore(items, n)
    ensures DistinctKeysBefore(items, n + 1)
  {
  }

  /** Distinct keys are as many as the items that carry them. */
  lemma {:induction false} DistinctKeysCount(items: seq<Item>, n: nat)
    requires n <= |items|
    requires DistinctKeysBefore(items, n)
    ensures |KeysBefore(items, n)| == n
  {
    if n == 0 {
      assert KeysBefore(items, 0) == {};
    } else {
      KeysBeforeNext(items, n - 1);
      DistinctKeysCount(items, n - 1);
      assert items[n - 1].key !in KeysBefore(items, n - 1);
    }
  }

  /**
    Indexes `items` by key. The index is built in list order and the first
    item whose key is already indexed aborts it: the failure carries that
    key (the source panics with "Duplicate key <key>").
   */
  method ByKey(items: seq<Item>) returns (r: Result<map<string, Item>, string>)
    ensures r.Success? <==> DistinctKeys(items)
    ensures r.Success? ==>
      && r.value.Keys == KeysBefore(items, |items|)
      && |r.value| == |items|
      && forall i | 0 <= i < |items| :: r.value[items[i].key] == items[i]
    ensures r.Failure? ==>
      exists i | 0 < i < |items| ::
        && r.error == items[i].key
        && DistinctKeysBefore(items, i)
        && items[i].key in KeysBefore(items, i)
  {
    var res: map<string, Item> := map[];
    var i := 0;
    while i < |items|
      invariant 0 <= i <= |items|
      invariant DistinctKeysBefore(items, i)
      invariant res.Keys == KeysBefore(items, i)
      invariant forall j | 0 <= j < i :: res[items[j].key] == items[j]
    {
      var item := items[i];
      if item.key in res {
        ghost var j :| 0 <= j < i && items[j].key == item.key;
        assert 0 < i && items[i].key in KeysBefore(items, i);
        return Failure(item.key);
      }
      KeysBeforeNext(items, i);
      DistinctKeysNext(items, i);
      res := res[item.key := item];
      i := i + 1;
    }
    DistinctKeysCount(items, |items|);
    assert |res| == |res.Keys|;
    return Success(res);
  }

  /** Two items with the same key make the list unindexable, whatever their other fields. */
  lemma SharedKeyBreaksDistinct(items: seq<Item>, i: nat, j: nat)
    requires i < |items| && j < |items| && i != j
    requires items[i].key == items[j].key
    ensures !DistinctKeys(items)
  {
  }

  /** The ids of `items`, in list order: what a delete call sends. */
  function ItemIds(items: seq<Item>): (ids: seq<string>)
    ensures |ids| == |items|
    ensures forall i | 0 <= i < |items| :: ids[i] == items[i].itemId
  {
    seq(|items|, i requires 0 <= i < |items| => items[i].itemId)
  }

  /**
    The items after a create call wrote the server's ids back by position:
    item i gets id i for every i < |ids|; items past the end of `ids`, and
    every field but the id, stay as they were.
   */
  function AssignIds(items: seq<Item>, ids: seq<string>): (r: seq<Item>)
    requires |ids| <= |items|
    ensures |r| == |items|
    ensures forall i | 0 <= i < |ids| :: r[i].itemId == ids[i]
    ensures forall i | |ids| <= i < |items| :: r[i] == items[i]
    ensures forall i | 0 <= i < |items| :: r[i].(itemId := items[i].itemId) == items[i]
  {
    seq(|items|, i requires 0 <= i < |items| =>
      if i < |ids| then items[i].(itemId := ids[i]) else items[i])
  }

  /** The items after a successful delete: every id is empty, nothing else changes. */
  function ClearIds(items: seq<Item>): (r: seq<Item>)
    ensures |r| == |items|
    ensures forall i | 0 <= i < |items| :: r[i].itemId == ""
    ensures forall i | 0 <= i < |items| :: r[i].(itemId := items[i].itemId) == items[i]
  {
    seq(|items|, i requires 0 <= i < |items| => items[i].(itemId := ""))
  }

  /** Once every item has an id, deleting them sends exactly the ids the create call returned. */
  lemma DeleteSendsCreatedIds(items: seq<Item>, ids: seq<string>)
    requires |ids| == |items|
    ensures ItemIds(AssignIds(items, ids)) == ids
  {
  }

  /** Creating items that have no id and then deleting them gives back the caller's items. */
  lemma CreateThenDeleteRestores(items: seq<Item>, ids: seq<string>)
    requires |ids| <= |items|
    requires forall i | 0 <= i < |items| :: items[i].itemId == ""
    ensures ClearIds(AssignIds(items, ids)) == items
  {
  }
}
