/** `dict.update` folded over a list of dicts, as the map and mat
    serializers' `concatenate` do it (yggdrasil/serialize/AsciiMapSerialize.py,
    yggdrasil/serialize/MatSerialize.py). */
module DictMerge {
  import opened Base

  /** `total = {}` then `total.update(x)` for each `x` in order. */
  function Merge<K, V>(objects: seq<map<K, V>>): map<K, V>
    decreases |objects|
  {
    if |objects| == 0 then map[]
    else Merge(objects[..|objects| - 1]) + objects[|objects| - 1]
  }

  /** The merged dict holds exactly the keys some object holds. */
  lemma {:induction false} MergeKeys<K(!new), V>(objects: seq<map<K, V>>)
    ensures forall k :: k in Merge(objects) <==> exists i :: 0 <= i < |objects| && k in objects[i]
    decreases |objects|
  {
    if |objects| > 0 {
      var front := objects[..|objects| - 1];
      MergeKeys(front);
      assert forall i :: 0 <= i < |front| ==> front[i] == objects[i];
    }
  }

  /** The last writer wins: a key takes its value from the last dict that
      holds it. */
  lemma {:induction false} LastWriterWins<K, V>(objects: seq<map<K, V>>, i: nat, k: K)
    requires i < |objects| && k in objects[i]
    requires forall j :: i < j < |objects| ==> k !in objects[j]
    ensures k in Merge(objects) && Merge(objects)[k] == objects[i][k]
    decreases |objects|
  {
    var n := |objects| - 1;
    var front := objects[..n];
    assert Merge(objects) == Merge(front) + objects[n];
    if i < n {
      assert front[i] == objects[i];
      forall j | i < j < |front|
        ensures k !in front[j]
      {
        assert front[j] == objects[j];
      }
      LastWriterWins(front, i, k);
      assert k !in objects[n];
      UpdateKeeps(Merge(front), objects[n], k);
    } else {
      UpdateTakes(Merge(front), objects[n], k);
    }
  }

  lemma UpdateTakes<K, V>(total: map<K, V>, x: map<K, V>, k: K)
    requires k in x
    ensures k in total + x && (total + x)[k] == x[k]
  {
  }

  lemma UpdateKeeps<K, V>(total: map<K, V>, x: map<K, V>, k: K)
    requires k in total && k !in x
    ensures (total + x)[k] == total[k]
  {
  }

  /** The loop as the source writes it. */
  method MergeLoop<K, V>(objects: seq<map<K, V>>) returns (total: map<K, V>)
    ensures total == Merge(objects)
  {
    total := map[];
    for n := 0 to |objects|
      invariant total == Merge(objects[..n])
    {
      assert objects[..n + 1][..n] == objects[..n];
      total := total + objects[n];
    }
    assert objects[..|objects|] == objects;
  }
}
