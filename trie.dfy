/**
 The `JsonTrie` type of the `jtrie` package: a trie owned by one object and
 updated in place by `Set` and `Delete`, walked by `Get`. Each method keeps
 the Go code's loop over the path with a cursor; each is proved against the
 functions of module TrieSpec, whose properties are proved there.

 Go's nested maps are references, so writing through the cursor changes the
 trie. Here the trie is a value, so `Set` and `Delete` remember the maps they
 pass on the way down (the spine) and write the changed map back into its
 parents once the last key is handled.
 */
module JTrie {
  import opened TrieSpec

  /**
   The trie rebuilt from the maps passed on the way down: `spine[i]` is the
   map reached after `keys[..i]`, and `hole` replaces the entry of the last of
   them under the last key.
   */
  ghost function Plug(spine: seq<map<string, Value>>, keys: seq<string>, hole: map<string, Value>): map<string, Value>
    requires |spine| == |keys|
    decreases |spine|
  {
    if spine == [] then hole
    else
      var n := |spine| - 1;
      Plug(spine[..n], keys[..n], spine[n][keys[n] := Obj(hole)])
  }

  /** Pushing one more map and key on the spine moves the hole one level down. */
  lemma PlugPush(spine: seq<map<string, Value>>, keys: seq<string>, o: map<string, Value>, k: string, hole: map<string, Value>)
    requires |spine| == |keys|
    ensures Plug(spine + [o], keys + [k], hole) == Plug(spine, keys, o[k := Obj(hole)])
  {
  }

  /**
   Step `i` of `Set`: the map `o` reached after `path[..i]` goes on the spine
   (with the entry under `path[i]` already replaced by a fresh map when it was
   not a map), and the rest of the assignment happens in the child.
   */
  lemma SetDescend(spine: seq<map<string, Value>>, path: seq<string>, i: nat,
                   o: map<string, Value>, parent: map<string, Value>, v: Value)
    requires i < |path| - 1 && |spine| == i
    requires parent == o || parent == o[path[i] := Obj(map[])]
    ensures Plug(spine, path[..i], Assign(o, path[i..], v))
         == Plug(spine + [parent], path[..i + 1], Assign(ChildOf(o, path[i]), path[i + 1..], v))
  {
    var key := path[i];
    var inner := Assign(ChildOf(o, key), path[i + 1..], v);
    assert path[i..][0] == key && path[i..][1..] == path[i + 1..];
    assert Assign(o, path[i..], v) == o[key := Obj(inner)];
    assert parent[key := Obj(inner)] == o[key := Obj(inner)];
    assert path[..i + 1] == path[..i] + [key];
    PlugPush(spine, path[..i], parent, key, inner);
  }

  class JsonTrie {
    var root: map<string, Value>

    /** A trie over an existing map (a Go conversion `JsonTrie(m)` or a literal). */
    constructor (init: map<string, Value>)
      ensures root == init
    {
      root := init;
    }

    /** `Get(path...)`: the value the path leads to, and whether the walk got there. */
    method Get(path: seq<string>) returns (value: Option<Value>, found: bool)
      ensures (value, found) == Lookup(root, path)
      ensures path == [] ==> value == Some(Obj(root)) && found
    {
      var obj: Option<Value> := Some(Obj(root));
      var i := 0;
      while i < |path|
        invariant 0 <= i <= |path|
        invariant Walk(obj, path[i..]) == Lookup(root, path)
      {
        var key := path[i];
        assert path[i..][1..] == path[i + 1..];
        match obj {
          case Some(Obj(m)) =>
            obj := Entry(m, key);
          case _ =>
            return None, false;
        }
        i := i + 1;
      }
      assert path[i..] == [];
      return obj, true;
    }

    /** `Set(value, path...)`: assign `value` at the path, creating maps as needed. */
    method Set(value: Value, path: seq<string>)
      modifies this
      ensures root == Assign(old(root), path, value)
    {
      if path == [] {
        return;
      }
      ghost var goal := Assign(root, path, value);
      var obj := root;
      var spine: seq<map<string, Value>> := [];
      var i := 0;
      while i < |path| - 1
        invariant 0 <= i < |path|
        invariant |spine| == i
        invariant goal == Plug(spine, path[..i], Assign(obj, path[i..], value))
      {
        var key := path[i];
        var parent := obj;
        ghost var before := obj;
        match Entry(obj, key) {
          case Some(Obj(m)) =>
            obj := m;
          case _ =>
            parent := parent[key := Obj(map[])];
            obj := map[];
        }
        SetDescend(spine, path, i, before, parent, value);
        spine := spine + [parent];
        i := i + 1;
      }
      assert path[i..] == [path[i]];
      assert Assign(obj, path[i..], value) == obj[path[i] := value];
      obj := obj[path[i] := value];
      obj := WriteBack(spine, path[..i], obj);
      root := obj;
    }

    /** `Delete(path...)`: remove the last key of the path, if the path leads to a map. */
    method Delete(path: seq<string>)
      modifies this
      ensures root == Remove(old(root), path)
    {
      if path == [] {
        return;
      }
      ghost var goal := Remove(root, path);
      var obj := root;
      var spine: seq<map<string, Value>> := [];
      var i := 0;
      while i < |path| - 1
        invariant 0 <= i < |path|
        invariant |spine| == i
        invariant Plug(spine, path[..i], obj) == root
        invariant goal == Plug(spine, path[..i], Remove(obj, path[i..]))
      {
        var key := path[i];
        assert path[i..][0] == key && path[i..][1..] == path[i + 1..];
        ghost var above := spine;
        match Entry(obj, key) {
          case Some(Obj(m)) =>
            assert obj[key := Obj(m)] == obj;
            spine := spine + [obj];
            obj := m;
          case _ =>
            return;
        }
        assert spine[..i] == spine[..|spine| - 1];
        assert path[..i + 1][..i] == path[..i];
        i := i + 1;
      }
      assert path[i..] == [path[i]];
      obj := obj - {path[i]};
      obj := WriteBack(spine, path[..i], obj);
      root := obj;
    }
  }

  /**
   Writes `obj` back into the maps passed on the way down, innermost first:
   the step Go gets for free because its inner maps are shared.
   */
  method WriteBack(spine: seq<map<string, Value>>, keys: seq<string>, obj: map<string, Value>)
    returns (r: map<string, Value>)
    requires |spine| == |keys|
    ensures r == Plug(spine, keys, obj)
  {
    r := obj;
    var i := |spine|;
    assert spine[..i] == spine && keys[..i] == keys;
    while i > 0
      invariant 0 <= i <= |spine|
      invariant Plug(spine[..i], keys[..i], r) == Plug(spine, keys, obj)
    {
      i := i - 1;
      assert spine[..i + 1][..i] == spine[..i] && keys[..i + 1][..i] == keys[..i];
      r := spine[i][keys[i] := Obj(r)];
    }
  }
}
