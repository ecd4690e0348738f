/**
  A Spring Data repository seen as a map from id to stored row. The order in
  which `findAll` yields the rows is not specified, so it is chosen here by
  an arbitrary pick.
*/
module Repository {

  /**
    `findAll`: every stored row exactly once, in some order. `keys` are the
    ids the rows were read under: each id once, and each row under its id.
  */
  method FindAll<T(==)>(rows: map<string, T>) returns (all: seq<T>, keys: seq<string>)
    ensures |all| == |keys| == |rows|
    ensures forall i :: 0 <= i < |keys| ==> keys[i] in rows && all[i] == rows[keys[i]]
    ensures forall i, j :: 0 <= i < j < |keys| ==> keys[i] != keys[j]
    ensures forall k :: k in rows ==> k in keys
    ensures forall i :: 0 <= i < |all| ==> all[i] in rows.Values
    ensures forall k :: k in rows ==> rows[k] in all
  {
    all, keys := [], [];
    var rest := rows.Keys;
    while rest != {}
      invariant rest <= rows.Keys
      invariant |all| == |keys| && |keys| + |rest| == |rows|
      invariant forall i :: 0 <= i < |keys| ==> keys[i] in rows && keys[i] !in rest && all[i] == rows[keys[i]]
      invariant forall i, j :: 0 <= i < j < |keys| ==> keys[i] != keys[j]
      invariant forall k :: k in rows && k !in rest ==> k in keys
      decreases |rest|
    {
      var k :| k in rest;
      all, keys := all + [rows[k]], keys + [k];
      rest := rest - {k};
    }
    forall k | k in rows ensures rows[k] in all {
      var i :| 0 <= i < |keys| && keys[i] == k;
    }
  }
}
