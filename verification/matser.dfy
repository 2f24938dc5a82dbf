/** The Matlab `.mat` serializer (yggdrasil/serialize/MatSerialize.py): the
    dict type guard, the removal of the keys `loadmat` adds, and
    `concatenate`. `savemat` and `loadmat` are parameters. */
module MatSer {
  import opened Base
  import opened DictMerge

  /** The argument handed to `func_serialize`: a dict, or any other Python
      object, known by its type name. */
  datatype PyObject<V> = Dict(entries: map<string, V>) | NotDict(typeName: string)

  /** The bookkeeping keys `loadmat` adds, deleted in this order. */
  const MetaKeys: seq<string> := ["__header__", "__globals__", "__version__"]

  /** `func_serialize`: a dict goes to `savemat`, anything else is a
      `TypeError`. */
  function Serialize<V, M>(obj: PyObject<V>, savemat: map<string, V> -> M): (r: Result<M>)
    ensures r.Failure? <==> obj.NotDict?
    ensures r.Failure? ==> r.error == TypeError("Object (type " + obj.typeName + ") is not a dictionary")
  {
    match obj
    case NotDict(t) => Failure(TypeError("Object (type " + t + ") is not a dictionary"))
    case Dict(d) => Success(savemat(d))
  }

  predicate Distinct(keys: seq<string>) {
    forall i, j :: 0 <= i < j < |keys| ==> keys[i] != keys[j]
  }

  /** `del out[k]` for each of `keys` in turn; a key already gone is a
      `KeyError`. */
  function DeleteKeys<V>(m: map<string, V>, keys: seq<string>): (r: Result<map<string, V>>)
    ensures r.Success? <==> Distinct(keys) && forall k :: k in keys ==> k in m
    ensures r.Success? ==> forall k :: k in r.value <==> k in m && k !in keys
    ensures r.Success? ==> forall k :: k in r.value ==> r.value[k] == m[k]
    ensures r.Failure? ==> r.error.KeyError? && r.error.key in keys
    decreases |keys|
  {
    if |keys| == 0 then Success(m)
    else if keys[0] !in m then Failure(KeyError(keys[0]))
    else
      var r := DeleteKeys(m - {keys[0]}, keys[1..]);
      DistinctCons(keys);
      assert forall k :: k in keys <==> k == keys[0] || k in keys[1..];
      r
  }

  lemma DistinctCons(keys: seq<string>)
    requires |keys| > 0
    ensures Distinct(keys) <==> Distinct(keys[1..]) && keys[0] !in keys[1..]
  {
    if Distinct(keys[1..]) && keys[0] !in keys[1..] {
      forall i, j | 0 <= i < j < |keys|
        ensures keys[i] != keys[j]
      {
        if i > 0 {
          assert keys[i] == keys[1..][i - 1] && keys[j] == keys[1..][j - 1];
        } else {
          assert keys[j] == keys[1..][j - 1];
        }
      }
    }
    if Distinct(keys) {
      forall i, j | 0 <= i < j < |keys| - 1
        ensures keys[1..][i] != keys[1..][j]
      {
        assert keys[i + 1] != keys[j + 1];
      }
    }
  }

  /** `func_deserialize`: what `loadmat` reads back, without the three
      bookkeeping keys. */
  function Deserialize<V, M>(msg: M, loadmat: M -> map<string, V>): (r: Result<map<string, V>>)
    ensures r.Success? <==> forall k :: k in MetaKeys ==> k in loadmat(msg)
    ensures r.Success? ==> forall k :: k in r.value <==> k in loadmat(msg) && k !in MetaKeys
    ensures r.Success? ==> forall k :: k in r.value ==> r.value[k] == loadmat(msg)[k]
    ensures r.Failure? ==> r.error.KeyError? && r.error.key in MetaKeys
  {
    MetaKeysDistinct();
    DeleteKeys(loadmat(msg), MetaKeys)
  }

  lemma MetaKeysDistinct()
    ensures Distinct(MetaKeys)
  {
    assert MetaKeys[0][2] == 'h' && MetaKeys[1][2] == 'g' && MetaKeys[2][2] == 'v';
  }

  /** What `loadmat` promises of a file `savemat` wrote: the dict's
      entries, plus the three bookkeeping keys. */
  ghost predicate Lawful<V(!new), M(!new)>(savemat: map<string, V> -> M, loadmat: M -> map<string, V>) {
    forall d: map<string, V> ::
      (forall k :: k in MetaKeys ==> k in loadmat(savemat(d)))
      && (forall k :: k in d ==> k in loadmat(savemat(d)) && loadmat(savemat(d))[k] == d[k])
      && (forall k :: k in loadmat(savemat(d)) ==> k in d || k in MetaKeys)
  }

  /** Serializing then deserializing a dict gives it back, provided it
      does not use the bookkeeping keys itself. */
  lemma RoundTrip<V(!new), M(!new)>(d: map<string, V>, savemat: map<string, V> -> M, loadmat: M -> map<string, V>)
    requires Lawful(savemat, loadmat)
    requires forall k :: k in MetaKeys ==> k !in d
    ensures Serialize(Dict(d), savemat).Success?
    ensures Deserialize(Serialize(Dict(d), savemat).value, loadmat) == Success(d)
  {
    var loaded := loadmat(savemat(d));
    var r := Deserialize(savemat(d), loadmat);
    assert r.Success?;
    assert r.value == d;
  }

  /** `concatenate`: one dict, each key from the last object holding it. */
  function Concatenate<V>(objects: seq<map<string, V>>): (r: seq<map<string, V>>)
    ensures |r| == 1
    ensures |objects| == 0 ==> r == [map[]]
    ensures forall k :: k in r[0] <==> exists i :: 0 <= i < |objects| && k in objects[i]
    ensures forall i, k {:trigger objects[i][k]} ::
      (0 <= i < |objects| && k in objects[i] && forall j :: i < j < |objects| ==> k !in objects[j])
      ==> r[0][k] == objects[i][k]
  {
    MergeKeys(objects);
    forall i, k | 0 <= i < |objects| && k in objects[i] && (forall j :: i < j < |objects| ==> k !in objects[j])
      ensures Merge(objects)[k] == objects[i][k]
    {
      LastWriterWins(objects, i, k);
    }
    [Merge(objects)]
  }
}
