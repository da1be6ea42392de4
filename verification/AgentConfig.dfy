/** Writing an agent back into the configuration: `deepMerge` and `writeAgentToConfig` of src/lib/agent-sync.ts. */
module AgentConfig {
  import opened Wrappers

  datatype Json =
    | Null
    | Bool(b: bool)
    | Number(n: real)
    | Str(s: string)
    | Arr(items: seq<Json>)
    | Obj(fields: map<string, Json>)

  type Object = j: Json | j.Obj? witness Obj(map[])

  /** The value at a key of both: objects are merged, everything else of the source replaces the target's. */
  function MergeValue(target: Option<Json>, source: Json): Json
    decreases source, 1
  {
    if source.Obj? && target.Some? && target.value.Obj? then Merge(target.value, source) else source
  }

  function Field(j: Object, key: string): Option<Json> {
    if key in j.fields then Some(j.fields[key]) else None
  }

  function Merge(target: Object, source: Object): (merged: Object)
    decreases source, 0
  {
    Obj(map key | key in target.fields.Keys + source.fields.Keys ::
          if key in source.fields then MergeValue(Field(target, key), source.fields[key]) else target.fields[key])
  }

  lemma MergeField(target: Object, source: Object, key: string)
    ensures Field(Merge(target, source), key) ==
      if key in source.fields then Some(MergeValue(Field(target, key), source.fields[key])) else Field(target, key)
  {
  }

  /** The loop over the keys of the source, on a copy of the target. */
  method DeepMerge(target: Object, source: Object) returns (result: Object)
    ensures result == Merge(target, source)
    decreases source
  {
    result := target;
    var keys := source.fields.Keys;
    while keys != {}
      invariant keys <= source.fields.Keys
      invariant result.fields == map key | key in target.fields.Keys + (source.fields.Keys - keys) ::
        if key in source.fields.Keys - keys then MergeValue(Field(target, key), source.fields[key]) else target.fields[key]
    {
      var key :| key in keys;
      var value := source.fields[key];
      if value.Obj? && key in target.fields && target.fields[key].Obj? {
        value := DeepMerge(target.fields[key], value);
      }
      result := Obj(result.fields[key := value]);
      keys := keys - {key};
    }
  }

  // ---------------------------------------------------------------------------
  // Path by path

  function Get(j: Json, path: seq<string>): Option<Json>
    decreases |path|
  {
    if path == [] then Some(j)
    else if !j.Obj? || path[0] !in j.fields then None
    else Get(j.fields[path[0]], path[1..])
  }

  lemma GetByField(j: Object, path: seq<string>)
    requires path != []
    ensures Get(j, path) == match Field(j, path[0]) case None => None case Some(child) => Get(child, path[1..])
  {
  }

  /** The value at a path is `leaf`, which is not an object. */
  predicate LeafAt(j: Json, path: seq<string>, leaf: Json) {
    !leaf.Obj? && Get(j, path) == Some(leaf)
  }

  predicate ObjectAt(j: Json, path: seq<string>) {
    Get(j, path).Some? && Get(j, path).value.Obj?
  }

  /** The source has a value at the path, or something other than an object on the way to it. */
  predicate Overrides(source: Object, path: seq<string>)
    requires path != []
    decreases |path|
  {
    path[0] in source.fields &&
    (|path| == 1 || !source.fields[path[0]].Obj? || Overrides(source.fields[path[0]], path[1..]))
  }

  /**
    The last write wins at every path: the merged object has the source's values, and of the target's exactly those
    that the source does not override. This holds for leaves and for the paths at which there is an object.
    */
  lemma {:induction false} MergeIsLastWriteWins(target: Object, source: Object, path: seq<string>, leaf: Json)
    requires path != []
    ensures LeafAt(Merge(target, source), path, leaf) <==>
      LeafAt(source, path, leaf) || (LeafAt(target, path, leaf) && !Overrides(source, path))
    ensures ObjectAt(Merge(target, source), path) <==>
      ObjectAt(source, path) || (ObjectAt(target, path) && !Overrides(source, path))
    decreases |path|
  {
    var key, rest := path[0], path[1..];
    MergeField(target, source, key);
    GetByField(target, path);
    GetByField(source, path);
    GetByField(Merge(target, source), path);
    assert |path| == 1 ==> rest == [];
    if |path| > 1 && key in source.fields && source.fields[key].Obj? && key in target.fields && target.fields[key].Obj? {
      MergeIsLastWriteWins(target.fields[key], source.fields[key], rest, leaf);
    }
  }

  /** Two objects with the same leaves and the same objects at the same paths are equal. */
  lemma {:induction false} PathsDetermineObject(a: Object, b: Object)
    requires forall path, leaf :: path != [] ==> (LeafAt(a, path, leaf) <==> LeafAt(b, path, leaf))
    requires forall path :: path != [] ==> (ObjectAt(a, path) <==> ObjectAt(b, path))
    ensures a == b
    decreases a
  {
    forall key
      ensures key in a.fields <==> key in b.fields
      ensures key in a.fields && key in b.fields ==> a.fields[key] == b.fields[key]
    {
      var x, y := Field(a, key), Field(b, key);
      GetByField(a, [key]);
      GetByField(b, [key]);
      assert [key][1..] == [];
      assert ObjectAt(a, [key]) <==> ObjectAt(b, [key]);
      if x.Some? && !x.value.Obj? {
        assert LeafAt(a, [key], x.value);
      } else if y.Some? && !y.value.Obj? {
        assert LeafAt(b, [key], y.value);
      } else if x.Some? && y.Some? {
        forall path, leaf | path != []
          ensures LeafAt(x.value, path, leaf) <==> LeafAt(y.value, path, leaf)
        {
          assert ([key] + path)[1..] == path;
          assert LeafAt(a, [key] + path, leaf) <==> LeafAt(b, [key] + path, leaf);
        }
        forall path | path != []
          ensures ObjectAt(x.value, path) <==> ObjectAt(y.value, path)
        {
          assert ([key] + path)[1..] == path;
          assert ObjectAt(a, [key] + path) <==> ObjectAt(b, [key] + path);
        }
        PathsDetermineObject(x.value, y.value);
      }
    }
    assert a.fields == b.fields;
  }

  lemma {:induction false} MergeWithItself(j: Object)
    ensures Merge(j, j) == j
    decreases j
  {
    forall key | key in j.fields && j.fields[key].Obj? {
      MergeWithItself(j.fields[key]);
    }
    assert Merge(j, j).fields == j.fields;
  }

  /** Merging the same source again changes nothing. */
  lemma {:induction false} MergeIsIdempotent(target: Object, source: Object)
    ensures Merge(Merge(target, source), source) == Merge(target, source)
    decreases source
  {
    var once := Merge(target, source);
    forall key
      ensures Field(Merge(once, source), key) == Field(once, key)
    {
      MergeField(target, source, key);
      MergeField(once, source, key);
      if key in source.fields && source.fields[key].Obj? {
        var value := source.fields[key];
        if key in target.fields && target.fields[key].Obj? {
          MergeIsIdempotent(target.fields[key], value);
          assert once.fields[key] == Merge(target.fields[key], value);
        } else {
          MergeWithItself(value);
        }
      }
    }
    SameFields(Merge(once, source), once);
  }

  lemma SameFields(a: Object, b: Object)
    requires forall key :: Field(a, key) == Field(b, key)
    ensures a == b
  {
    assert forall key :: key in a.fields <==> Field(b, key).Some?;
    assert forall key :: key in a.fields ==> a.fields[key] == Field(b, key).value;
    assert a.fields == b.fields;
  }

  // ---------------------------------------------------------------------------
  // The agent list

  /** The operator === on values of two separately parsed texts; None is undefined. */
  predicate StrictlyEqual(x: Option<Json>, y: Option<Json>) {
    x == y && (x.Some? ==> !x.value.Obj? && !x.value.Arr?)
  }

  predicate SameId(a: Object, b: Object) {
    StrictlyEqual(Field(a, "id"), Field(b, "id"))
  }

  /** The position of the first entry with the agent's id, or the length of the list. */
  function IndexOf(list: seq<Object>, agent: Object): (k: nat)
    ensures k <= |list|
    ensures k < |list| ==> SameId(list[k], agent)
    ensures forall i :: 0 <= i < k ==> !SameId(list[i], agent)
  {
    if list == [] || SameId(list[0], agent) then 0 else 1 + IndexOf(list[1..], agent)
  }

  function Written(list: seq<Object>, agent: Object): seq<Object> {
    var k := IndexOf(list, agent);
    if k < |list| then list[k := Merge(list[k], agent)] else list + [agent]
  }

  class AgentList {
    var list: seq<Object>

    method WriteAgent(agent: Object)
      modifies this
      ensures list == Written(old(list), agent)
    {
      var idx := 0;
      while idx < |list| && !SameId(list[idx], agent)
        invariant 0 <= idx <= |list|
        invariant forall i :: 0 <= i < idx ==> !SameId(list[i], agent)
      {
        idx := idx + 1;
      }
      if idx < |list| {
        var merged := DeepMerge(list[idx], agent);
        list := list[idx := merged];
      } else {
        list := list + [agent];
      }
    }
  }

  /** At most one entry changes, none is removed and none moves. */
  lemma WriteKeepsOthers(list: seq<Object>, agent: Object, i: nat)
    requires i < |list|
    ensures |list| <= |Written(list, agent)| <= |list| + 1
    ensures Written(list, agent)[i] == if i == IndexOf(list, agent) then Merge(list[i], agent) else list[i]
    ensures |Written(list, agent)| > |list| ==> Written(list, agent) == list + [agent]
    ensures |Written(list, agent)| > |list| <==> forall k :: 0 <= k < |list| ==> !SameId(list[k], agent)
  {
  }

  /** A merged entry keeps the agent's id. */
  lemma MergeKeepsId(target: Object, agent: Object)
    requires SameId(target, agent)
    ensures Field(Merge(target, agent), "id") == Field(agent, "id")
  {
  }

  /** Writing the same agent twice is the same as writing it once, exactly when its id is not an object or an array. */
  lemma WriteIsIdempotent(list: seq<Object>, agent: Object)
    ensures Written(Written(list, agent), agent) == Written(list, agent) <==>
      match Field(agent, "id")
      case None => true
      case Some(id) => !id.Obj? && !id.Arr?
  {
    var k, once := IndexOf(list, agent), Written(list, agent);
    if SameId(agent, agent) {
      if k < |list| {
        MergeKeepsId(list[k], agent);
        MergeIsIdempotent(list[k], agent);
      } else {
        MergeWithItself(agent);
      }
      assert SameId(once[k], agent) && forall i :: 0 <= i < k ==> once[i] == list[i];
      assert IndexOf(once, agent) == k;
      assert once[k := once[k]] == once;
    } else {
      assert forall i :: 0 <= i < |once| ==> !SameId(once[i], agent);
      assert |Written(once, agent)| == |once| + 1;
    }
  }
}
