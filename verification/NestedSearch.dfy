/** The breadth-first search for a credential field in src/lib/provider-subscriptions.ts. */
module NestedSearch {
  import opened Wrappers
  import Text

  /** A parsed JSON value; the fields of an object are in the order of Object.entries. */
  datatype Json =
    | Null
    | Bool(b: bool)
    | Number(n: real)
    | Str(s: string)
    | Arr(items: seq<Json>)
    | Obj(fields: seq<Field>)
  {
    predicate IsContainer() {
      Arr? || Obj?
    }
  }

  datatype Field = Field(name: string, value: Json)

  /** What is looked for: field names in lower case, and the function that lowers a name. */
  datatype Query = Query(wanted: set<string>, lower: string -> string)

  predicate Matches(query: Query, field: Field) {
    query.lower(field.name) in query.wanted && field.value.Str? && Text.Trim(field.value.s) != ""
  }

  /** The trimmed value of the first matching field. */
  function FieldHit(query: Query, fields: seq<Field>): Option<string> {
    if fields == [] then None
    else if Matches(query, fields[0]) then Some(Text.Trim(fields[0].value.s))
    else FieldHit(query, fields[1..])
  }

  function Hit(query: Query, j: Json): Option<string> {
    if j.Obj? then FieldHit(query, j.fields) else None
  }

  function FieldContainers(fields: seq<Field>): seq<Json> {
    if fields == [] then []
    else if fields[0].value.IsContainer() then [fields[0].value] + FieldContainers(fields[1..])
    else FieldContainers(fields[1..])
  }

  /** What the search puts into the queue for a value. */
  function Children(j: Json): seq<Json> {
    match j
    case Arr(items) => items
    case Obj(fields) => FieldContainers(fields)
    case _ => []
  }

  // ---------------------------------------------------------------------------
  // The size of what is still to be searched

  function Size(j: Json): nat
    decreases j, 0
  {
    match j
    case Arr(items) => 1 + SizeAll(items)
    case Obj(fields) => 1 + SizeFields(fields)
    case _ => 1
  }

  function SizeAll(js: seq<Json>): nat
    decreases js, 1
  {
    if js == [] then 0 else Size(js[0]) + SizeAll(js[1..])
  }

  function SizeFields(fields: seq<Field>): nat
    decreases fields, 1
  {
    if fields == [] then 0 else Size(fields[0].value) + SizeFields(fields[1..])
  }

  lemma {:induction false} SizeAllConcat(a: seq<Json>, b: seq<Json>)
    ensures SizeAll(a + b) == SizeAll(a) + SizeAll(b)
  {
    if a == [] {
      assert a + b == b;
    } else {
      assert (a + b)[1..] == a[1..] + b;
      SizeAllConcat(a[1..], b);
    }
  }

  lemma {:induction false} ContainersFit(fields: seq<Field>)
    ensures SizeAll(FieldContainers(fields)) <= SizeFields(fields)
  {
    if fields != [] {
      ContainersFit(fields[1..]);
      if fields[0].value.IsContainer() {
        assert FieldContainers(fields)[1..] == FieldContainers(fields[1..]);
      }
    }
  }

  lemma ChildrenFit(j: Json)
    ensures SizeAll(Children(j)) < Size(j)
  {
    if j.Obj? {
      ContainersFit(j.fields);
    }
  }

  // ---------------------------------------------------------------------------
  // Level by level

  function FirstHit(query: Query, level: seq<Json>): Option<string> {
    if level == [] then None
    else if Hit(query, level[0]).Some? then Hit(query, level[0])
    else FirstHit(query, level[1..])
  }

  function NextLevel(level: seq<Json>): (next: seq<Json>)
    ensures SizeAll(next) <= SizeAll(level)
    ensures level != [] ==> SizeAll(next) < SizeAll(level)
  {
    if level == [] then []
    else
      ChildrenFit(level[0]);
      SizeAllConcat(Children(level[0]), NextLevel(level[1..]));
      Children(level[0]) + NextLevel(level[1..])
  }

  /** The first hit of the first level that has one. */
  function Search(query: Query, level: seq<Json>): Option<string>
    decreases SizeAll(level)
  {
    if level == [] then None
    else if FirstHit(query, level).Some? then FirstHit(query, level)
    else Search(query, NextLevel(level))
  }

  /** The search when `level` is what is left of a level and `next` what has been collected of the next. */
  function SearchRest(query: Query, level: seq<Json>, next: seq<Json>): Option<string> {
    if FirstHit(query, level).Some? then FirstHit(query, level)
    else Search(query, next + NextLevel(level))
  }

  lemma SearchRestStep(query: Query, level: seq<Json>, next: seq<Json>)
    requires level != []
    ensures SearchRest(query, level, next) ==
      if Hit(query, level[0]).Some? then Hit(query, level[0])
      else SearchRest(query, level[1..], next + Children(level[0]))
  {
    assert next + NextLevel(level) == next + Children(level[0]) + NextLevel(level[1..]);
  }

  lemma SearchRestTurn(query: Query, next: seq<Json>)
    ensures SearchRest(query, [], next) == SearchRest(query, next, [])
  {
    assert next + [] == next && [] + NextLevel(next) == NextLevel(next);
    assert NextLevel([]) == [];
  }

  lemma SearchRestStart(query: Query, level: seq<Json>)
    ensures SearchRest(query, level, []) == Search(query, level)
  {
    assert [] + NextLevel(level) == NextLevel(level);
  }

  lemma SearchRestEnd(query: Query)
    ensures SearchRest(query, [], []) == None
  {
  }

  /** The loop over the entries of one object. */
  method ScanFields(query: Query, fields: seq<Field>, queue: seq<Json>) returns (found: Option<string>, queue': seq<Json>)
    ensures found == FieldHit(query, fields)
    ensures found == None ==> queue' == queue + FieldContainers(fields)
  {
    queue' := queue;
    for i := 0 to |fields|
      invariant FieldHit(query, fields) == FieldHit(query, fields[i..])
      invariant queue' + FieldContainers(fields[i..]) == queue + FieldContainers(fields)
    {
      var Field(key, value) := fields[i];
      assert fields[i..][1..] == fields[i + 1..];
      if query.lower(key) in query.wanted && value.Str? && Text.Trim(value.s) != "" {
        return Some(Text.Trim(value.s)), queue';
      }
      if value.IsContainer() {
        queue' := queue' + [value];
      }
    }
    found := None;
    assert queue' + [] == queue';
  }

  method FindNestedString(root: Json, keys: seq<string>, lower: string -> string) returns (found: Option<string>)
    ensures found == Search(Query(set k | k in keys :: lower(k), lower), [root])
  {
    hide Search, SearchRest, FirstHit, FieldHit, FieldContainers, NextLevel, Size;
    var queue := [root];
    var query := Query(set k | k in keys :: lower(k), lower);
    ghost var level, next := [root], [];
    SearchRestStart(query, [root]);
    while queue != []
      invariant queue == level + next
      invariant Search(query, [root]) == SearchRest(query, level, next)
      decreases SizeAll(queue)
    {
      if level == [] {
        SearchRestTurn(query, next);
        level, next := next, [];
      }
      var current := queue[0];
      queue := queue[1..];
      assert queue == level[1..] + next;
      ChildrenFit(current);
      SizeAllConcat(queue, Children(current));
      SearchRestStep(query, level, next);
      if current.Arr? {
        queue := queue + current.items;
      } else if current.Obj? {
        found, queue := ScanFields(query, current.fields, queue);
        if found.Some? {
          return;
        }
      }
      level, next := level[1..], next + Children(current);
      assert queue == level + next;
    }
    SearchRestEnd(query);
    found := None;
  }

  // ---------------------------------------------------------------------------
  // What is found

  /** The values directly inside a value: items of an array, field values of an object. */
  function Inner(j: Json): seq<Json> {
    match j
    case Arr(items) => items
    case Obj(fields) => seq(|fields|, i requires 0 <= i < |fields| => fields[i].value)
    case _ => []
  }

  /** The value reached from `j` by going inside along the path. */
  function At(j: Json, path: seq<nat>): Option<Json>
    decreases |path|
  {
    if path == [] then Some(j)
    else if path[0] >= |Inner(j)| then None
    else At(Inner(j)[path[0]], path[1..])
  }

  predicate HitAt(query: Query, root: Json, path: seq<nat>) {
    At(root, path).Some? && Hit(query, At(root, path).value).Some?
  }

  lemma {:induction false} ContainersAreInside(fields: seq<Field>, j: Json)
    ensures j in FieldContainers(fields) <==> j.IsContainer() && exists i :: 0 <= i < |fields| && fields[i].value == j
  {
    if fields != [] {
      ContainersAreInside(fields[1..], j);
      assert forall i :: 0 < i < |fields| ==> fields[i] == fields[1..][i - 1];
      if i :| 0 <= i < |fields| - 1 && fields[1..][i].value == j {
        assert fields[i + 1].value == j;
      }
    }
  }

  /** The search looks at everything inside an array, and at the arrays and objects inside an object. */
  lemma ChildrenAreInside(parent: Json, j: Json)
    ensures j in Children(parent) ==> j in Inner(parent)
    ensures j in Inner(parent) && j.IsContainer() ==> j in Children(parent)
  {
    if parent.Obj? {
      ContainersAreInside(parent.fields, j);
      forall i | 0 <= i < |parent.fields| && parent.fields[i].value == j
        ensures j in Inner(parent)
      {
        assert Inner(parent)[i] == j;
      }
    }
  }

  function Level(level: seq<Json>, depth: nat): seq<Json>
    decreases depth
  {
    if depth == 0 then level else Level(NextLevel(level), depth - 1)
  }

  lemma {:induction false} NextLevelMembers(level: seq<Json>, j: Json)
    ensures j in NextLevel(level) <==> exists parent <- level :: j in Children(parent)
  {
    if level != [] {
      NextLevelMembers(level[1..], j);
      assert level == [level[0]] + level[1..];
    }
  }

  predicate Reaches(start: Json, path: seq<nat>, j: Json) {
    At(start, path) == Some(j)
  }

  lemma {:induction false} LevelIsReached(level: seq<Json>, depth: nat, j: Json) returns (start: Json, path: seq<nat>)
    requires j in Level(level, depth)
    ensures start in level && |path| == depth && Reaches(start, path, j)
    decreases depth
  {
    if depth == 0 {
      start, path := j, [];
    } else {
      var child, rest := LevelIsReached(NextLevel(level), depth - 1, j);
      NextLevelMembers(level, child);
      start :| start in level && child in Children(start);
      ChildrenAreInside(start, child);
      var k :| 0 <= k < |Inner(start)| && Inner(start)[k] == child;
      path := [k] + rest;
      assert path[1..] == rest;
    }
  }

  lemma {:induction false} ReachedIsInLevel(level: seq<Json>, start: Json, path: seq<nat>, j: Json)
    requires start in level && Reaches(start, path, j) && j.IsContainer()
    ensures j in Level(level, |path|)
    decreases |path|
  {
    hide NextLevel, Children;
    if path != [] {
      var child := Inner(start)[path[0]];
      assert child in Inner(start);
      assert Reaches(child, path[1..], j);
      assert child.IsContainer() by {
        assert path[1..] == [] ==> child == j;
      }
      ChildrenAreInside(start, child);
      NextLevelMembers(level, child);
      ReachedIsInLevel(NextLevel(level), child, path[1..], j);
    }
  }

  lemma {:induction false} FirstHitMembers(query: Query, level: seq<Json>)
    ensures FirstHit(query, level) == None ==> forall j <- level :: Hit(query, j) == None
    ensures FirstHit(query, level).Some? ==> exists j <- level :: Hit(query, j) == FirstHit(query, level)
  {
    if level != [] {
      FirstHitMembers(query, level[1..]);
    }
  }

  /** The search stops at the first level that has a hit. */
  lemma {:induction false} SearchStopsAtLevel(query: Query, level: seq<Json>) returns (depth: nat)
    ensures Search(query, level).Some? ==> FirstHit(query, Level(level, depth)) == Search(query, level)
    ensures forall d: nat :: (Search(query, level) == None || d < depth) ==> FirstHit(query, Level(level, d)) == None
    decreases SizeAll(level)
  {
    if level == [] {
      depth := 0;
      forall d: nat ensures FirstHit(query, Level([], d)) == None {
        EmptyLevels(d);
      }
    } else if FirstHit(query, level).Some? {
      depth := 0;
    } else {
      depth := SearchStopsAtLevel(query, NextLevel(level));
      depth := depth + 1;
      forall d: nat | Search(query, level) == None || d < depth
        ensures FirstHit(query, Level(level, d)) == None
      {
        if d > 0 {
          assert Level(level, d) == Level(NextLevel(level), d - 1);
        }
      }
    }
  }

  lemma {:induction false} EmptyLevels(d: nat)
    ensures Level([], d) == []
  {
    if d > 0 {
      assert NextLevel([]) == [];
      EmptyLevels(d - 1);
    }
  }

  /**
    For every JSON value: the search finds something exactly when some nested object has a hit, and then it returns
    the hit of an object at the least depth at which there is one.
    */
  lemma FindsShallowestHit(query: Query, root: Json)
    ensures Search(query, [root]) == None <==> forall path :: !HitAt(query, root, path)
    ensures Search(query, [root]).Some? ==> exists path ::
      && HitAt(query, root, path)
      && Hit(query, At(root, path).value) == Search(query, [root])
      && forall other :: HitAt(query, root, other) ==> |path| <= |other|
  {
    var depth := SearchStopsAtLevel(query, [root]);
    forall path | HitAt(query, root, path)
      ensures FirstHit(query, Level([root], |path|)).Some?
    {
      var j := At(root, path).value;
      assert Reaches(root, path, j);
      ReachedIsInLevel([root], root, path, j);
      FirstHitMembers(query, Level([root], |path|));
    }
    if Search(query, [root]).Some? {
      FirstHitMembers(query, Level([root], depth));
      var j :| j in Level([root], depth) && Hit(query, j) == Search(query, [root]);
      var start, path := LevelIsReached([root], depth, j);
      assert HitAt(query, root, path);
    }
  }

  /** A field whose lowered name is wanted, with a string that is `text` when trimmed, and not blank. */
  predicate Offers(query: Query, field: Field, text: string) {
    && query.lower(field.name) in query.wanted
    && field.value.Str? && Text.Trim(field.value.s) == text && text != ""
  }

  ghost predicate FirstOffer(query: Query, fields: seq<Field>, i: int, text: string) {
    0 <= i < |fields| && Offers(query, fields[i], text) && forall k, other :: 0 <= k < i ==> !Offers(query, fields[k], other)
  }

  /** An object has a hit exactly if one of its fields offers a text, and then it is the text of the first such field. */
  lemma {:induction false} FieldHitIsFirstOffer(query: Query, fields: seq<Field>)
    ensures FieldHit(query, fields) == None <==> forall i, text :: 0 <= i < |fields| ==> !Offers(query, fields[i], text)
    ensures FieldHit(query, fields).Some? ==> exists i :: FirstOffer(query, fields, i, FieldHit(query, fields).value)
  {
    if fields != [] {
      if Matches(query, fields[0]) {
        assert FirstOffer(query, fields, 0, Text.Trim(fields[0].value.s));
      } else {
        FieldHitIsFirstOffer(query, fields[1..]);
        assert forall k :: 0 < k < |fields| ==> fields[k] == fields[1..][k - 1];
        if FieldHit(query, fields).Some? {
          var text := FieldHit(query, fields).value;
          var i :| FirstOffer(query, fields[1..], i, text);
          assert FirstOffer(query, fields, i + 1, text);
        }
      }
    }
  }
}
