/**
 Helm values as trees: the merge of two of them, its meaning along every path, and its relation to
 the JSON merge patch of section 2 of RFC 7396.
*/
module ValueTrees {
  import opened Wrappers

  type Key = string

  /** A YAML value: null, a mapping, or a scalar (or list) that merging never looks into. */
  datatype Value = Null | Leaf(token: int) | Node(entries: map<Key, Value>)

  type Object = v: Value | v.Node? witness Node(map[])

  /** What `MapDeepMerge(dst, src)` leaves in `dst`. */
  function Merge(dst: Object, src: Object): Object
    decreases src
  {
    Node(map k | k in dst.entries.Keys + src.entries.Keys && (k in src.entries ==> src.entries[k] != Null) ::
      if k !in src.entries then dst.entries[k]
      else if src.entries[k].Node? && k in dst.entries && dst.entries[k].Node? then
        Merge(dst.entries[k], src.entries[k])
      else src.entries[k])
  }

  /** The layers merged into `dst`, one after the other. */
  function MergeAll(dst: Object, layers: seq<Object>): Object
    decreases |layers|
  {
    if layers == [] then dst else MergeAll(Merge(dst, layers[0]), layers[1..])
  }

  // ---------------------------------------------------------------------------------------------
  // Along a path
  // ---------------------------------------------------------------------------------------------

  /** What stands at a path of keys. */
  function At(v: Value, path: seq<Key>): Option<Value> {
    if path == [] then Some(v)
    else if v.Node? && path[0] in v.entries then At(v.entries[path[0]], path[1..])
    else None
  }

  /** A leaf of `src` wins. */
  lemma {:induction false} LeafWins(dst: Object, src: Object, path: seq<Key>)
    requires At(src, path).Some? && At(src, path).value.Leaf?
    ensures At(Merge(dst, src), path) == At(src, path)
    decreases |path|
  {
    var k := path[0];
    if k in dst.entries && dst.entries[k].Node? && src.entries[k].Node? {
      LeafWins(dst.entries[k], src.entries[k], path[1..]);
    }
  }

  /** Where `src` holds a null, nothing that is not null is left. */
  lemma {:induction false} NullDrops(dst: Object, src: Object, path: seq<Key>)
    requires At(src, path) == Some(Null)
    ensures At(Merge(dst, src), path) in {None, Some(Null)}
    decreases |path|
  {
    var k := path[0];
    if |path| > 1 && k in dst.entries && dst.entries[k].Node? {
      NullDrops(dst.entries[k], src.entries[k], path[1..]);
    }
  }

  /** `src` ends before `path` does, on a mapping that lacks the next key. */
  predicate RunsOut(src: Value, path: seq<Key>) {
    path != [] && src.Node? && (path[0] !in src.entries || RunsOut(src.entries[path[0]], path[1..]))
  }

  /** Where `src` runs out, what `dst` holds is kept. */
  lemma {:induction false} DstKept(dst: Object, src: Object, path: seq<Key>)
    requires RunsOut(src, path) && At(dst, path).Some?
    ensures At(Merge(dst, src), path) == At(dst, path)
    decreases |path|
  {
    var k := path[0];
    if k in src.entries {
      DstKept(dst.entries[k], src.entries[k], path[1..]);
    }
  }

  lemma {:induction false} LayersKeep(dst: Object, layers: seq<Object>, path: seq<Key>)
    requires (forall l :: l in layers ==> RunsOut(l, path)) && At(dst, path).Some?
    ensures At(MergeAll(dst, layers), path) == At(dst, path)
    decreases |layers|
  {
    if layers != [] {
      assert layers[0] in layers && forall l :: l in layers[1..] ==> l in layers;
      DstKept(dst, layers[0], path);
      LayersKeep(Merge(dst, layers[0]), layers[1..], path);
    }
  }

  /** Of several layers, the leaf of the last one that has something at a path wins. */
  lemma {:induction false} LastLeafWins(dst: Object, layers: seq<Object>, i: nat, path: seq<Key>)
    requires i < |layers| && At(layers[i], path).Some? && At(layers[i], path).value.Leaf?
    requires forall j :: i < j < |layers| ==> RunsOut(layers[j], path)
    ensures At(MergeAll(dst, layers), path) == At(layers[i], path)
    decreases |layers|
  {
    var merged, rest := Merge(dst, layers[0]), layers[1..];
    if i == 0 {
      LeafWins(dst, layers[0], path);
      assert forall j :: 0 <= j < |rest| ==> rest[j] == layers[j + 1];
      LayersKeep(merged, rest, path);
    } else {
      LastLeafWins(merged, rest, i - 1, path);
    }
  }

  // ---------------------------------------------------------------------------------------------
  // JSON merge patch
  // ---------------------------------------------------------------------------------------------

  /** `MergePatch` of section 2 of RFC 7396. */
  function MergePatch(target: Value, patch: Value): Value
    decreases patch
  {
    if !patch.Node? then patch else
    var kept := if target.Node? then target.entries else map[];
    Node(map k | k in kept.Keys + patch.entries.Keys && (k in patch.entries ==> patch.entries[k] != Null) ::
      if k !in patch.entries then kept[k]
      else MergePatch(if k in kept then kept[k] else Null, patch.entries[k]))
  }

  /** No mapping of the value holds a null. */
  predicate NullFree(v: Value) {
    v.Node? ==> forall k :: k in v.entries ==> v.entries[k] != Null && NullFree(v.entries[k])
  }

  /** Every mapping of `src` that holds a null somewhere below it meets a mapping of `dst`. */
  predicate NullsMeetMappings(dst: Object, src: Object)
    decreases src
  {
    forall k :: k in src.entries && src.entries[k].Node? ==>
      if k in dst.entries && dst.entries[k].Node? then NullsMeetMappings(dst.entries[k], src.entries[k])
      else NullFree(src.entries[k])
  }

  lemma PatchWithoutMapping(target: Value, patch: Value)
    requires !patch.Node?
    ensures MergePatch(target, patch) == patch
  {
  }

  /** Patching something that is not a mapping gives the patch back exactly when it holds no null. */
  lemma {:induction false} PatchOfNothing(target: Value, patch: Value)
    requires !target.Node?
    ensures MergePatch(target, patch) == patch <==> NullFree(patch)
    decreases patch
  {
    if patch.Node? {
      var r := MergePatch(target, patch);
      forall k | k in patch.entries
        ensures MergePatch(Null, patch.entries[k]) == patch.entries[k] <==> NullFree(patch.entries[k])
      {
        PatchOfNothing(Null, patch.entries[k]);
      }
      if NullFree(patch) {
        assert r.entries == patch.entries;
      } else {
        var k :| k in patch.entries && !(patch.entries[k] != Null && NullFree(patch.entries[k]));
        assert k !in r.entries || r.entries[k] != patch.entries[k];
      }
    }
  }

  /** The merge is the JSON merge patch exactly when the nulls of `src` meet mappings of `dst`. */
  lemma {:induction false} MergeIsPatchIff(dst: Object, src: Object)
    ensures Merge(dst, src) == MergePatch(dst, src) <==> NullsMeetMappings(dst, src)
    decreases src
  {
    var m, p := Merge(dst, src), MergePatch(dst, src);
    forall k | k in m.entries
      ensures m.entries[k] == p.entries[k] <==>
        (k in src.entries && src.entries[k].Node? ==>
          if k in dst.entries && dst.entries[k].Node? then NullsMeetMappings(dst.entries[k], src.entries[k])
          else NullFree(src.entries[k]))
    {
      if k in src.entries && src.entries[k].Node? {
        if k in dst.entries && dst.entries[k].Node? {
          MergeIsPatchIff(dst.entries[k], src.entries[k]);
        } else {
          PatchOfNothing(if k in dst.entries then dst.entries[k] else Null, src.entries[k]);
        }
      } else if k in src.entries {
        PatchWithoutMapping(if k in dst.entries then dst.entries[k] else Null, src.entries[k]);
      }
    }
    assert m.entries.Keys == p.entries.Keys;
    assert m.entries == p.entries <==> forall k :: k in m.entries ==> m.entries[k] == p.entries[k];
  }

  /** A null below a key that `dst` does not hold stays, where the patch would drop it. */
  lemma NullLeftBehind()
    ensures var dst, src := Node(map[]), Node(map["a" := Node(map["b" := Null])]);
      At(Merge(dst, src), ["a", "b"]) == Some(Null) && At(MergePatch(dst, src), ["a", "b"]) == None
  {
    var dst: Object, src: Object := Node(map[]), Node(map["a" := Node(map["b" := Null])]);
    var m, p := Merge(dst, src), MergePatch(dst, src);
    assert m.entries["a"] == Node(map["b" := Null]);
    assert p.entries["a"] == MergePatch(Null, Node(map["b" := Null])) == Node(map[]);
    assert ["a", "b"][1..] == ["b"] && ["b"][1..] == [];
    assert At(m, ["a", "b"]) == At(m.entries["a"], ["b"]) == At(Null, []);
    assert At(p, ["a", "b"]) == At(Node(map[]), ["b"]) == None;
  }

  /** Merging a mapping into itself drops its nulls. */
  lemma {:induction false} MergeWithItself(v: Object, target: Value)
    requires !target.Node?
    ensures Merge(v, v) == MergePatch(target, v)
    decreases v
  {
    var m, p := Merge(v, v), MergePatch(target, v);
    forall k | k in m.entries ensures m.entries[k] == p.entries[k] {
      if v.entries[k].Node? { MergeWithItself(v.entries[k], Null); } else { PatchWithoutMapping(Null, v.entries[k]); }
    }
    assert m.entries == p.entries;
  }

  /** Merging the same layer twice is the JSON merge patch, whatever the layer. */
  lemma {:induction false} MergeTwiceIsPatch(dst: Object, src: Object)
    ensures Merge(Merge(dst, src), src) == MergePatch(dst, src)
    decreases src
  {
    var once := Merge(dst, src);
    var m, p := Merge(once, src), MergePatch(dst, src);
    forall k | k in m.entries ensures k in p.entries && m.entries[k] == p.entries[k] {
      if k in src.entries && src.entries[k].Node? {
        if k in dst.entries && dst.entries[k].Node? {
          MergeTwiceIsPatch(dst.entries[k], src.entries[k]);
        } else {
          MergeWithItself(src.entries[k], if k in dst.entries then dst.entries[k] else Null);
        }
      } else if k in src.entries {
        PatchWithoutMapping(if k in dst.entries then dst.entries[k] else Null, src.entries[k]);
      }
    }
    assert m.entries == p.entries;
  }
}
