/** Sums over the entries of a map, which do not depend on the order of the walk. */
module MapSum {
  ghost function Sum<V>(items: map<string, V>, weight: V -> nat): nat
    decreases |items|
  {
    if items == map[] then 0 else
      var id :| id in items;
      FewerItems(items, id);
      weight(items[id]) + Sum(items - {id}, weight)
  }

  lemma FewerItems<V>(items: map<string, V>, id: string)
    requires id in items
    ensures |items - {id}| == |items| - 1
  {
    assert (items - {id}).Keys == items.Keys - {id};
  }

  lemma {:induction false} SumRemove<V>(items: map<string, V>, weight: V -> nat, id: string)
    requires id in items
    ensures Sum(items, weight) == weight(items[id]) + Sum(items - {id}, weight)
    decreases |items|
  {
    FewerItems(items, id);
    var first :| first in items && Sum(items, weight) == weight(items[first]) + Sum(items - {first}, weight);
    if first != id {
      FewerItems(items, first);
      SumRemove(items - {first}, weight, id);
      SumRemove(items - {id}, weight, first);
      assert items - {first} - {id} == items - {id} - {first};
    }
  }

  lemma SumPut<V>(items: map<string, V>, weight: V -> nat, id: string, v: V)
    ensures id !in items ==> Sum(items[id := v], weight) == Sum(items, weight) + weight(v)
    ensures id in items ==> Sum(items[id := v], weight) + weight(items[id]) == Sum(items, weight) + weight(v)
  {
    var after := items[id := v];
    SumRemove(after, weight, id);
    if id in items {
      SumRemove(items, weight, id);
      assert after - {id} == items - {id};
    } else {
      assert after - {id} == items;
    }
  }
}
