/**
 * The aggregated-metric data object: a read-only array of named fields,
 * given at construction. As a datatype value it cannot change after it is
 * built, which is what the `readonly` property promises.
 */
module AggregatedMetricDto {
  import opened Wrappers

  /** The fields, in the order given; a PHP array holds each key once. */
  datatype Dto<V> = Dto(data: seq<(string, V)>) {

    /** `toArray()`: the array the object was constructed with. */
    function ToArray(): (r: seq<(string, V)>)
      ensures |r| == |data| && forall i :: 0 <= i < |r| ==> r[i] == data[i]
    {
      data
    }

    /** `$dto->name`: the value stored under `name`, and no value (PHP's null) when there is none. */
    function Get(name: string): (r: Option<V>)
      ensures r.None? <==> forall i :: 0 <= i < |data| ==> data[i].0 != name
      ensures r.Some? ==> exists i :: 0 <= i < |data| && data[i] == (name, r.value)
                                      && forall j :: 0 <= j < i ==> data[j].0 != name
      decreases |data|
    {
      if data == [] then None
      else if data[0].0 == name then Some(data[0].1)
      else
        var rest := Dto(data[1..]).Get(name);
        assert forall i :: 0 <= i < |data| - 1 ==> data[1..][i] == data[i + 1];
        rest
    }
  }

  /** Keys appear at most once. */
  predicate DistinctKeys<V>(data: seq<(string, V)>) {
    forall i, j :: 0 <= i < j < |data| ==> data[i].0 != data[j].0
  }

  /** A field reads back as its own value when no earlier field has its name. */
  lemma GetFirst<V>(data: seq<(string, V)>, i: nat)
    requires i < |data| && forall j :: 0 <= j < i ==> data[j].0 != data[i].0
    ensures Dto(data).Get(data[i].0) == Some(data[i].1)
  {
    var r := Dto(data).Get(data[i].0);
    assert r.Some?;
    var k :| 0 <= k < |data| && data[k] == (data[i].0, r.value) && forall j :: 0 <= j < k ==> data[j].0 != data[i].0;
    assert k == i;
  }

  /** When the keys are distinct, every stored field reads back as its own value. */
  lemma GetStored<V>(data: seq<(string, V)>, i: nat)
    requires DistinctKeys(data) && i < |data|
    ensures Dto(data).Get(data[i].0) == Some(data[i].1)
  {
    GetFirst(data, i);
  }
}
