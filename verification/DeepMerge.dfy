/**
 The in-place deep merge of Helm values (`MapDeepMerge`). Go maps are references, so the mappings
 live in a heap: the merge rewrites `dst` and its sub-mappings where they are, and lets `dst` share
 the sub-mappings of `src` that it takes over.
*/
module DeepMerge {
  import opened ValueTrees

  type Ref = nat

  /** What a key of a Go `map[string]interface{}` holds: nil, a scalar or a reference to a map. */
  datatype Entry = NullEntry | LeafEntry(token: int) | MapEntry(ref: Ref)

  type Cells = map<Ref, map<Key, Entry>>

  /** A value together with the place of each of its mappings. */
  datatype Located = LNull | LLeaf(token: int) | LNode(ref: Ref, entries: map<Key, Located>)

  ghost function Erase(l: Located): Value {
    match l
    case LNull => Null
    case LLeaf(token) => Leaf(token)
    case LNode(_, entries) => Node(map k | k in entries :: Erase(entries[k]))
  }

  ghost function Refs(l: Located): set<Ref> {
    match l
    case LNull => {}
    case LLeaf(_) => {}
    case LNode(ref, entries) => {ref} + set k, r | k in entries && r in Refs(entries[k]) :: r
  }

  /** No mapping occurs twice. */
  ghost predicate Tree(l: Located) {
    l.LNode? ==>
      && (forall k :: k in l.entries ==> l.ref !in Refs(l.entries[k]) && Tree(l.entries[k]))
      && (forall k, m :: k in l.entries && m in l.entries && k != m ==> Refs(l.entries[k]) !! Refs(l.entries[m]))
  }

  function EntryOf(l: Located): Entry {
    match l
    case LNull => NullEntry
    case LLeaf(token) => LeafEntry(token)
    case LNode(ref, _) => MapEntry(ref)
  }

  /** The heap holds the value where it says it is. */
  ghost predicate Stored(cells: Cells, l: Located) {
    l.LNode? ==>
      && l.ref in cells && cells[l.ref] == (map k | k in l.entries :: EntryOf(l.entries[k]))
      && (forall k :: k in l.entries ==> Stored(cells, l.entries[k]))
  }

  /** The merge with its places: `d` keeps its own mappings and takes over those of `s`. */
  ghost function MergeLocated(d: Located, s: Located): Located
    requires d.LNode? && s.LNode?
    ensures MergeLocated(d, s).LNode? && MergeLocated(d, s).ref == d.ref
    decreases s
  {
    LNode(d.ref, map k | k in d.entries.Keys + s.entries.Keys && (k in s.entries ==> s.entries[k] != LNull) ::
      if k !in s.entries then d.entries[k]
      else if s.entries[k].LNode? && k in d.entries && d.entries[k].LNode? then
        MergeLocated(d.entries[k], s.entries[k])
      else s.entries[k])
  }

  lemma {:induction false} MergeLocatedErases(d: Located, s: Located)
    requires d.LNode? && s.LNode?
    ensures Erase(MergeLocated(d, s)) == Merge(Erase(d), Erase(s))
    decreases s
  {
    var m, l := MergeLocated(d, s).entries, Merge(Erase(d), Erase(s)).entries;
    var de, se := Erase(d).entries, Erase(s).entries;
    assert forall k :: k in s.entries ==> se[k] == Erase(s.entries[k]) && (se[k] == Null <==> s.entries[k] == LNull);
    assert forall k :: k in m <==> k in l;
    forall k | k in m ensures Erase(m[k]) == l[k] {
      if k in d.entries && k in s.entries && d.entries[k].LNode? && s.entries[k].LNode? {
        MergeLocatedErases(d.entries[k], s.entries[k]);
        assert de[k] == Erase(d.entries[k]);
      }
    }
    assert Erase(MergeLocated(d, s)).entries == l;
  }

  lemma RefsOfEntry(l: Located, k: Key)
    requires l.LNode? && k in l.entries
    ensures Refs(l.entries[k]) <= Refs(l)
  {
  }

  /** The mappings that the merge may have under a key. */
  ghost function RefsAt(d: Located, s: Located, k: Key): set<Ref>
    requires d.LNode? && s.LNode?
  {
    (if k in d.entries then Refs(d.entries[k]) else {}) + (if k in s.entries then Refs(s.entries[k]) else {})
  }

  lemma RefsApart(d: Located, s: Located)
    requires d.LNode? && s.LNode? && Tree(d) && Tree(s) && Refs(d) !! Refs(s)
    ensures forall k :: d.ref !in RefsAt(d, s, k)
    ensures forall k, m :: k != m ==> RefsAt(d, s, k) !! RefsAt(d, s, m)
    ensures forall k :: k in d.entries && k in s.entries ==> Refs(d.entries[k]) !! Refs(s.entries[k])
  {
    forall k | k in d.entries ensures Refs(d.entries[k]) <= Refs(d) { RefsOfEntry(d, k); }
    forall k | k in s.entries ensures Refs(s.entries[k]) <= Refs(s) { RefsOfEntry(s, k); }
  }

  lemma {:induction false} MergeLocatedRefs(d: Located, s: Located)
    requires d.LNode? && s.LNode?
    ensures var m := MergeLocated(d, s);
      Refs(m) <= Refs(d) + Refs(s) && forall k :: k in m.entries ==> Refs(m.entries[k]) <= RefsAt(d, s, k)
    decreases s
  {
    var m := MergeLocated(d, s);
    forall k | k in m.entries ensures Refs(m.entries[k]) <= RefsAt(d, s, k) && RefsAt(d, s, k) <= Refs(d) + Refs(s) {
      if k in d.entries { RefsOfEntry(d, k); }
      if k in s.entries { RefsOfEntry(s, k); }
      if k in d.entries && k in s.entries && d.entries[k].LNode? && s.entries[k].LNode? {
        MergeLocatedRefs(d.entries[k], s.entries[k]);
      }
    }
  }

  /** Merging two trees over disjoint mappings gives a tree. */
  lemma {:induction false} MergeLocatedTree(d: Located, s: Located)
    requires d.LNode? && s.LNode? && Tree(d) && Tree(s) && Refs(d) !! Refs(s)
    ensures Tree(MergeLocated(d, s))
    decreases s
  {
    var m := MergeLocated(d, s);
    RefsApart(d, s);
    MergeLocatedRefs(d, s);
    forall k | k in m.entries ensures Tree(m.entries[k]) {
      if k in d.entries && k in s.entries && d.entries[k].LNode? && s.entries[k].LNode? {
        MergeLocatedTree(d.entries[k], s.entries[k]);
      }
    }
    forall k, l | k in m.entries && l in m.entries && k != l ensures Refs(m.entries[k]) !! Refs(m.entries[l]) {
      assert RefsAt(d, s, k) !! RefsAt(d, s, l);
    }
  }

  /** What is stored over cells that did not change is still stored. */
  lemma {:induction false} StoredFrame(cells: Cells, cells': Cells, l: Located)
    requires Stored(cells, l)
    requires forall r :: r in Refs(l) && r in cells ==> r in cells' && cells'[r] == cells[r]
    ensures Stored(cells', l)
    decreases l
  {
    if l.LNode? {
      forall k | k in l.entries ensures Stored(cells', l.entries[k]) {
        StoredFrame(cells, cells', l.entries[k]);
      }
    }
  }

  /** What `dst` holds under each key while the keys of `todo` are still to be visited. */
  ghost function Progress(d: Located, s: Located, todo: set<Key>): map<Key, Located>
    requires d.LNode? && s.LNode?
  {
    var m := MergeLocated(d, s).entries;
    map k | k in d.entries.Keys + m.Keys && (if k in todo then k in d.entries else k in m) ::
      if k in todo then d.entries[k] else m[k]
  }

  lemma VisitedEnds(cells: Cells, d: Located, s: Located)
    requires d.LNode? && s.LNode?
    ensures Stored(cells, d) && Stored(cells, s) ==> Visited(cells, d, s, s.entries.Keys)
    ensures Visited(cells, d, s, {}) ==> Stored(cells, MergeLocated(d, s))
  {
    ProgressEnds(d, s);
  }

  ghost predicate Visited(cells: Cells, d: Located, s: Located, todo: set<Key>)
    requires d.LNode? && s.LNode?
  {
    Stored(cells, s) && Stored(cells, LNode(d.ref, Progress(d, s, todo)))
  }

  lemma ProgressRefs(d: Located, s: Located, todo: set<Key>)
    requires d.LNode? && s.LNode?
    ensures var p := Progress(d, s, todo); forall k :: k in p ==> Refs(p[k]) <= RefsAt(d, s, k)
  {
    MergeLocatedRefs(d, s);
  }

  lemma ProgressEnds(d: Located, s: Located)
    requires d.LNode? && s.LNode?
    ensures Progress(d, s, s.entries.Keys) == d.entries && Progress(d, s, {}) == MergeLocated(d, s).entries
  {
  }

  /** What the merge puts under a key of `s` that is not null there. */
  ghost function Taken(d: Located, s: Located, key: Key): Located
    requires d.LNode? && s.LNode? && key in s.entries
  {
    if s.entries[key].LNode? && key in d.entries && d.entries[key].LNode? then
      MergeLocated(d.entries[key], s.entries[key])
    else s.entries[key]
  }

  lemma ProgressStep(d: Located, s: Located, todo: set<Key>, key: Key)
    requires d.LNode? && s.LNode? && key in todo && key in s.entries
    ensures var p := Progress(d, s, todo - {key});
      && p - {key} == Progress(d, s, todo) - {key}
      && (key in p <==> s.entries[key] != LNull)
      && (key in p ==> p[key] == Taken(d, s, key))
      && (key in Progress(d, s, todo) <==> key in d.entries)
      && (key in d.entries ==> Progress(d, s, todo)[key] == d.entries[key])
  {
  }

  /** What stands under the other keys stays stored. */
  lemma OthersStored(cells: Cells, cells': Cells, d: Located, s: Located, todo: set<Key>, key: Key, k: Key)
    requires d.LNode? && Tree(d) && s.LNode? && Tree(s) && Refs(d) !! Refs(s)
    requires forall r :: r in cells && r != d.ref && (key in d.entries ==> r !in Refs(d.entries[key])) ==>
      r in cells' && cells'[r] == cells[r]
    requires k != key && k in Progress(d, s, todo) && Stored(cells, Progress(d, s, todo)[k])
    ensures Stored(cells', Progress(d, s, todo)[k])
  {
    RefsApart(d, s);
    ProgressRefs(d, s, todo);
    assert RefsAt(d, s, k) !! RefsAt(d, s, key);
    StoredFrame(cells, cells', Progress(d, s, todo)[k]);
  }

  /** A turn of the loop that changes only `key` of `dst`, or what stands under it. */
  lemma VisitedStep(cells: Cells, cells': Cells, d: Located, s: Located, todo: set<Key>, key: Key)
    requires d.LNode? && Tree(d) && s.LNode? && Tree(s) && Refs(d) !! Refs(s)
    requires key in todo && todo <= s.entries.Keys && Visited(cells, d, s, todo)
    requires cells'.Keys == cells.Keys && cells'[d.ref] - {key} == cells[d.ref] - {key}
    requires forall r :: r in cells && r != d.ref && (key in d.entries ==> r !in Refs(d.entries[key])) ==>
      cells'[r] == cells[r]
    requires var p := Progress(d, s, todo - {key});
      && (key in p <==> key in cells'[d.ref])
      && (key in p ==> cells'[d.ref][key] == EntryOf(p[key]) && Stored(cells', p[key]))
    ensures Visited(cells', d, s, todo - {key})
  {
    var p, p' := Progress(d, s, todo), Progress(d, s, todo - {key});
    ProgressStep(d, s, todo, key);
    if key in d.entries { RefsOfEntry(d, key); }
    StoredFrame(cells, cells', s);
    forall k | k in p' ensures Stored(cells', p'[k]) {
      if k != key {
        assert k in p - {key} && (p' - {key})[k] == (p - {key})[k];
        OthersStored(cells, cells', d, s, todo, key, k);
      }
    }
    CellStep(cells[d.ref], cells'[d.ref], p, p', key);
  }

  /** The turns that delete the key, or set it to what `src` holds. */
  lemma ReplacedStep(cells: Cells, cells': Cells, d: Located, s: Located, todo: set<Key>, key: Key)
    requires d.LNode? && Tree(d) && s.LNode? && Tree(s) && Refs(d) !! Refs(s)
    requires key in todo && todo <= s.entries.Keys && Visited(cells, d, s, todo)
    requires s.entries[key].LNode? ==> key !in d.entries || !d.entries[key].LNode?
    requires var e := EntryOf(s.entries[key]);
      cells' == cells[d.ref := if e.NullEntry? then cells[d.ref] - {key} else cells[d.ref][key := e]]
    ensures Visited(cells', d, s, todo - {key})
  {
    var p := Progress(d, s, todo - {key});
    ProgressStep(d, s, todo, key);
    assert key in p ==> p[key] == s.entries[key];
    assert Stored(cells', s.entries[key]) by { StoredFrame(cells, cells', s); }
    DeleteOrSet(cells[d.ref], key, EntryOf(s.entries[key]));
    VisitedStep(cells, cells', d, s, todo, key);
  }

  lemma DeleteOrSet(cell: map<Key, Entry>, key: Key, e: Entry)
    ensures (cell - {key}) - {key} == cell - {key} && cell[key := e] - {key} == cell - {key}
  {
  }

  lemma CellStep(cell: map<Key, Entry>, cell': map<Key, Entry>, p: map<Key, Located>, p': map<Key, Located>, key: Key)
    requires cell == map k | k in p :: EntryOf(p[k])
    requires cell' - {key} == cell - {key} && p' - {key} == p - {key}
    requires key in p' <==> key in cell'
    requires key in p' ==> cell'[key] == EntryOf(p'[key])
    ensures cell' == map k | k in p' :: EntryOf(p'[k])
  {
    forall k ensures k in cell' <==> k in p' {
      assert k in cell' - {key} <==> k in p' - {key};
    }
    forall k | k in cell' ensures cell'[k] == EntryOf(p'[k]) {
      if k != key { assert (cell' - {key})[k] == (cell - {key})[k] && (p' - {key})[k] == (p - {key})[k]; }
    }
  }

  /** The layers are stored values, mappings, and share none of their mappings. */
  ghost predicate Layers(cells: Cells, layers: seq<Ref>, ls: seq<Located>) {
    && |layers| == |ls|
    && (forall i :: 0 <= i < |ls| ==> ls[i].LNode? && ls[i].ref == layers[i] && Stored(cells, ls[i]) && Tree(ls[i]))
    && (forall i, j :: 0 <= i < j < |ls| ==> Refs(ls[i]) !! Refs(ls[j]))
  }

  /** The layers merged into `m`, one after the other. */
  ghost function MergeLayersLocated(m: Located, ls: seq<Located>): Located
    requires m.LNode? && forall l :: l in ls ==> l.LNode?
    ensures MergeLayersLocated(m, ls).LNode? && MergeLayersLocated(m, ls).ref == m.ref
    decreases |ls|
  {
    if ls == [] then m else MergeLayersLocated(MergeLocated(m, ls[0]), ls[1..])
  }

  ghost function EraseAll(ls: seq<Located>): seq<Object>
    requires forall l :: l in ls ==> l.LNode?
  {
    if ls == [] then [] else
    assert ls[0] in ls;
    var first: Object := Erase(ls[0]);
    [first] + EraseAll(ls[1..])
  }

  lemma {:induction false} MergeLayersErases(m: Located, ls: seq<Located>)
    requires m.LNode? && forall l :: l in ls ==> l.LNode?
    ensures Erase(MergeLayersLocated(m, ls)) == MergeAll(Erase(m), EraseAll(ls))
    decreases |ls|
  {
    if ls != [] {
      MergeLocatedErases(m, ls[0]);
      MergeLayersErases(MergeLocated(m, ls[0]), ls[1..]);
      assert EraseAll(ls)[1..] == EraseAll(ls[1..]);
    }
  }

  lemma {:induction false} StoredRefs(cells: Cells, l: Located)
    requires Stored(cells, l)
    ensures Refs(l) <= cells.Keys
    decreases l
  {
    if l.LNode? {
      forall k | k in l.entries ensures Refs(l.entries[k]) <= cells.Keys { StoredRefs(cells, l.entries[k]); }
    }
  }

  class Heap {
    var cells: Cells

    /** `MapDeepMerge`: the keys of `src` are visited in any order. */
    method MapDeepMerge(dst: Ref, src: Ref, ghost d: Located, ghost s: Located)
      requires d.LNode? && d.ref == dst && Stored(cells, d) && Tree(d)
      requires s.LNode? && s.ref == src && Stored(cells, s) && Tree(s)
      requires Refs(d) !! Refs(s)
      modifies this
      ensures Stored(cells, MergeLocated(d, s))
      ensures cells.Keys == old(cells.Keys)
      ensures forall r :: r in cells && r !in Refs(d) ==> cells[r] == old(cells)[r]
      decreases s
    {
      VisitedEnds(cells, d, s);
      var todo := cells[src].Keys;
      assert todo == s.entries.Keys;
      while todo != {}
        invariant todo <= s.entries.Keys && cells.Keys == old(cells.Keys)
        invariant Visited(cells, d, s, todo)
        invariant forall r :: r in cells && r !in Refs(d) ==> cells[r] == old(cells)[r]
        decreases todo
      {
        var key :| key in todo;
        VisitKey(dst, src, key, d, s, todo);
        todo := todo - {key};
      }
      VisitedEnds(cells, d, s);
    }

    /** One turn of the loop. */
    method VisitKey(dst: Ref, src: Ref, key: Key, ghost d: Located, ghost s: Located, ghost todo: set<Key>)
      requires d.LNode? && d.ref == dst && Tree(d) && s.LNode? && s.ref == src && Tree(s) && Refs(d) !! Refs(s)
      requires key in todo && todo <= s.entries.Keys && Visited(cells, d, s, todo)
      modifies this
      ensures Visited(cells, d, s, todo - {key}) && cells.Keys == old(cells.Keys)
      ensures forall r :: r in cells && r !in Refs(d) ==> cells[r] == old(cells)[r]
      decreases s, 0
    {
      ghost var before := cells;
      ProgressStep(d, s, todo, key);
      var value := cells[src][key];
      if value.MapEntry? && key in cells[dst] && cells[dst][key].MapEntry? {
        RefsApart(d, s);
        RefsOfEntry(d, key);
        MapDeepMerge(cells[dst][key].ref, value.ref, d.entries[key], s.entries[key]);
        assert cells[dst] == before[dst];
        VisitedStep(before, cells, d, s, todo, key);
      } else {
        if value.NullEntry? {
          cells := cells[dst := cells[dst] - {key}];
        } else {
          cells := cells[dst := cells[dst][key := value]];
        }
        ReplacedStep(before, cells, d, s, todo, key);
      }
    }

    /** `mergeValues`: the layers found, from the defaults to the user's overrides, merged into an empty mapping. */
    method MergeValues(layers: seq<Ref>, merged: Ref, ghost ls: seq<Located>)
      requires Layers(cells, layers, ls) && merged !in cells
      modifies this
      ensures Stored(cells, MergeLayersLocated(LNode(merged, map[]), ls))
      ensures Erase(MergeLayersLocated(LNode(merged, map[]), ls)) == MergeAll(Node(map[]), EraseAll(ls))
    {
      cells := cells[merged := map[]];
      ghost var m, m0 := LNode(merged, map[]), LNode(merged, map[]);
      forall j | 0 <= j < |ls| ensures Stored(cells, ls[j]) && merged !in Refs(ls[j]) {
        StoredRefs(old(cells), ls[j]);
        StoredFrame(old(cells), cells, ls[j]);
      }
      for i := 0 to |layers|
        invariant m.LNode? && m.ref == merged && Stored(cells, m) && Tree(m)
        invariant MergeLayersLocated(m, ls[i..]) == MergeLayersLocated(m0, ls)
        invariant forall j :: i <= j < |ls| ==> Stored(cells, ls[j]) && Refs(m) !! Refs(ls[j])
      {
        ghost var before := cells;
        MapDeepMerge(merged, layers[i], m, ls[i]);
        forall j | i < j < |ls| ensures Stored(cells, ls[j]) && Refs(MergeLocated(m, ls[i])) !! Refs(ls[j]) {
          StoredRefs(before, ls[j]);
          StoredFrame(before, cells, ls[j]);
          MergeLocatedRefs(m, ls[i]);
        }
        MergeLocatedTree(m, ls[i]);
        assert ls[i..][1..] == ls[i + 1..];
        m := MergeLocated(m, ls[i]);
      }
      MergeLayersErases(m0, ls);
    }
  }
}
