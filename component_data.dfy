/**
 The component registry: one (component, claims) pair per `add_item` call,
 filed under three independent keys (name, path and runtime id). Each index is
 a map the insertion overwrites, so the last pair added under a key is the one
 found under it. The `Arc` the source shares between the three indices
 becomes value equality here.
 */
module ComponentData {
  import opened Manifest
  import opened Helper

  /** The arguments of one `add_item` call. */
  datatype Addition = Addition(name: string, path: string, id: string, entry: Entry)

  /** The three indices of the registry. */
  datatype Index = ByName | ByPath | ById

  /** The key an addition is filed under in an index. */
  function KeyOf(a: Addition, index: Index): string
  {
    match index
    case ByName => a.name
    case ByPath => a.path
    case ById => a.id
  }

  /** The map an index holds after the given additions, in order. */
  function Indexed(log: seq<Addition>, index: Index): map<string, Entry>
  {
    if log == [] then map[]
    else
      var last := log[|log| - 1];
      Indexed(log[..|log| - 1], index)[KeyOf(last, index) := last.entry]
  }

  /** `e` is the entry of the last addition filed under `key` in `index`. */
  ghost predicate LastAddedUnder(log: seq<Addition>, index: Index, key: string, e: Entry)
  {
    exists i :: 0 <= i < |log| && KeyOf(log[i], index) == key && log[i].entry == e
      && forall j :: i < j < |log| ==> KeyOf(log[j], index) != key
  }

  /** A key is in an index exactly when some addition was filed under it. */
  lemma {:induction false} IndexedKeys(log: seq<Addition>, index: Index, key: string)
    ensures key in Indexed(log, index) <==> exists i :: 0 <= i < |log| && KeyOf(log[i], index) == key
  {
    if log != [] {
      var init := log[..|log| - 1];
      IndexedKeys(init, index, key);
      if key in Indexed(init, index) {
        var i :| 0 <= i < |init| && KeyOf(init[i], index) == key;
        assert log[i] == init[i];
      }
      if exists i :: 0 <= i < |log| && KeyOf(log[i], index) == key {
        var i :| 0 <= i < |log| && KeyOf(log[i], index) == key;
        if i < |init| {
          assert init[i] == log[i];
        }
      }
    }
  }

  /** Last write wins: the entry found under a key is that of the last addition filed under it. */
  lemma {:induction false} IndexedLastWrite(log: seq<Addition>, index: Index, key: string)
    requires key in Indexed(log, index)
    ensures LastAddedUnder(log, index, key, Indexed(log, index)[key])
  {
    var last := log[|log| - 1];
    var init := log[..|log| - 1];
    if KeyOf(last, index) == key {
      assert 0 <= |log| - 1 < |log| && KeyOf(log[|log| - 1], index) == key;
    } else {
      IndexedLastWrite(init, index, key);
      var i :| 0 <= i < |init| && KeyOf(init[i], index) == key && init[i].entry == Indexed(init, index)[key]
        && forall j :: i < j < |init| ==> KeyOf(init[j], index) != key;
      assert log[i] == init[i];
      forall j | i < j < |log|
        ensures KeyOf(log[j], index) != key
      {
        if j < |init| {
          assert log[j] == init[j];
        }
      }
    }
  }

  /** An entry that is the last one added under a key is unique. */
  lemma LastAddedUnique(log: seq<Addition>, index: Index, key: string, e1: Entry, e2: Entry)
    requires LastAddedUnder(log, index, key, e1)
    requires LastAddedUnder(log, index, key, e2)
    ensures e1 == e2
  {
    var i1 :| 0 <= i1 < |log| && KeyOf(log[i1], index) == key && log[i1].entry == e1
      && forall j :: i1 < j < |log| ==> KeyOf(log[j], index) != key;
    var i2 :| 0 <= i2 < |log| && KeyOf(log[i2], index) == key && log[i2].entry == e2
      && forall j :: i2 < j < |log| ==> KeyOf(log[j], index) != key;
    assert !(i1 < i2) && !(i2 < i1);
  }

  /**
   An addition is found under its own key in each of the three indices, so the
   three lookups of that addition agree.
   */
  lemma AddedFoundUnderEachKey(log: seq<Addition>, a: Addition)
    ensures LastAddedUnder(log + [a], ByName, a.name, a.entry)
    ensures LastAddedUnder(log + [a], ByPath, a.path, a.entry)
    ensures LastAddedUnder(log + [a], ById, a.id, a.entry)
  {
    var log' := log + [a];
    assert log'[|log|] == a;
    assert KeyOf(log'[|log|], ByName) == a.name;
    assert KeyOf(log'[|log|], ByPath) == a.path;
    assert KeyOf(log'[|log|], ById) == a.id;
  }

  /** An index is empty exactly when nothing was ever added. */
  lemma IndexedEmpty(log: seq<Addition>, index: Index)
    ensures |Indexed(log, index)| == 0 <==> log == []
  {
    if log != [] {
      var last := log[|log| - 1];
      assert KeyOf(last, index) in Indexed(log, index);
    }
  }

  /** An addition leaves every other key of every index as it was. */
  lemma {:induction false} AdditionFrame(log: seq<Addition>, a: Addition, index: Index, key: string)
    requires key != KeyOf(a, index)
    ensures key in Indexed(log + [a], index) <==> key in Indexed(log, index)
    ensures key in Indexed(log, index) ==> Indexed(log + [a], index)[key] == Indexed(log, index)[key]
  {
    assert (log + [a])[..|log|] == log;
  }

  /** `ComponentData`. */
  class ComponentData {
    var nameMap: map<string, Entry>
    var pathMap: map<string, Entry>
    var idMap: map<string, Entry>
    /** Every `add_item` call so far, oldest first. */
    ghost var log: seq<Addition>

    /** Each index holds exactly what the additions so far filed under it. */
    ghost predicate Valid()
      reads this
    {
      && nameMap == Indexed(log, ByName)
      && pathMap == Indexed(log, ByPath)
      && idMap == Indexed(log, ById)
    }

    /** `ComponentData::new`: three empty indices. */
    constructor ()
      ensures Valid() && log == []
      ensures nameMap == map[] && pathMap == map[] && idMap == map[]
    {
      nameMap, pathMap, idMap := map[], map[], map[];
      log := [];
    }

    /**
     `add_item`: files one pair under its name, path and id. Each index
     changes at that key only.
     */
    method AddItem(name: string, path: string, id: string, component: Component, claims: ComponentClaims)
      requires Valid()
      modifies this
      ensures Valid()
      ensures log == old(log) + [Addition(name, path, id, (component, claims))]
      ensures nameMap == old(nameMap)[name := (component, claims)]
      ensures pathMap == old(pathMap)[path := (component, claims)]
      ensures idMap == old(idMap)[id := (component, claims)]
    {
      var data := (component, claims);
      nameMap := nameMap[name := data];
      pathMap := pathMap[path := data];
      idMap := idMap[id := data];
      log := log + [Addition(name, path, id, data)];
      assert log[..|log| - 1] == old(log);
    }

    /** `get_by_name`: the pair last added under `name`; a missing name panics. */
    function GetByName(name: string): (e: Entry)
      reads this
      requires Valid() && name in nameMap
      ensures LastAddedUnder(log, ByName, name, e)
    {
      IndexedLastWrite(log, ByName, name);
      nameMap[name]
    }

    /** `get_by_path`: the pair last added under `path`; a missing path panics. */
    function GetByPath(path: string): (e: Entry)
      reads this
      requires Valid() && path in pathMap
      ensures LastAddedUnder(log, ByPath, path, e)
    {
      IndexedLastWrite(log, ByPath, path);
      pathMap[path]
    }

    /** `get_by_id`: the pair last added under `id`; a missing id panics. */
    function GetById(id: string): (e: Entry)
      reads this
      requires Valid() && id in idMap
      ensures LastAddedUnder(log, ById, id, e)
    {
      IndexedLastWrite(log, ById, id);
      idMap[id]
    }

    /** `is_empty`: looks at the name index only, which is empty exactly when nothing was ever added. */
    function IsEmpty(): (b: bool)
      reads this
      requires Valid()
      ensures b <==> log == []
    {
      IndexedEmpty(log, ByName);
      |nameMap| == 0
    }

    /**
     `get_paths`: every path ever added, each once, in the unspecified order
     of the path index.
     */
    method GetPaths() returns (paths: seq<string>)
      requires Valid()
      ensures forall i, j :: 0 <= i < j < |paths| ==> paths[i] != paths[j]
      ensures forall p :: p in paths <==> exists i :: 0 <= i < |log| && log[i].path == p
    {
      paths := [];
      var remaining := pathMap.Keys;
      while remaining != {}
        invariant remaining <= pathMap.Keys
        invariant forall p :: p in paths <==> p in pathMap && p !in remaining
        invariant forall i, j :: 0 <= i < j < |paths| ==> paths[i] != paths[j]
        decreases remaining
      {
        var p :| p in remaining;
        paths := paths + [p];
        remaining := remaining - {p};
      }
      forall p
        ensures p in paths <==> exists i :: 0 <= i < |log| && log[i].path == p
      {
        IndexedKeys(log, ByPath, p);
      }
    }

    /**
     `get_components`: one pair per distinct name, the last one added under
     that name, in the unspecified order of the name index (`names`).
     */
    method GetComponents() returns (entries: seq<Entry>, ghost names: seq<string>)
      requires Valid()
      ensures |entries| == |names|
      ensures forall i, j :: 0 <= i < j < |names| ==> names[i] != names[j]
      ensures forall n :: n in names <==> exists i :: 0 <= i < |log| && log[i].name == n
      ensures forall k :: 0 <= k < |entries| ==> LastAddedUnder(log, ByName, names[k], entries[k])
    {
      entries, names := [], [];
      var remaining := nameMap.Keys;
      while remaining != {}
        invariant remaining <= nameMap.Keys
        invariant |entries| == |names|
        invariant forall n :: n in names <==> n in nameMap && n !in remaining
        invariant forall i, j :: 0 <= i < j < |names| ==> names[i] != names[j]
        invariant forall k :: 0 <= k < |entries| ==> names[k] in nameMap && entries[k] == nameMap[names[k]]
        decreases remaining
      {
        var n :| n in remaining;
        entries, names := entries + [nameMap[n]], names + [n];
        remaining := remaining - {n};
      }
      forall n
        ensures n in names <==> exists i :: 0 <= i < |log| && log[i].name == n
      {
        IndexedKeys(log, ByName, n);
      }
      forall k | 0 <= k < |entries|
        ensures LastAddedUnder(log, ByName, names[k], entries[k])
      {
        IndexedLastWrite(log, ByName, names[k]);
      }
    }
  }
}
