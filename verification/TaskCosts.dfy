/** The task cost report of src/lib/task-costs.ts. */
module TaskCosts {
  import opened Wrappers

  /** A token usage record; `timestamp` is in milliseconds since 1970. */
  datatype Record = Record(model: string, agent: string, timestamp: int, tokens: int, cost: real, taskId: Option<int>)

  datatype TaskMeta = TaskMeta(title: string, status: string, priority: string, projectId: Option<int>)

  datatype Stats = Stats(tokens: int, cost: real, requests: nat, avgTokens: int, avgCost: real)

  datatype Day = Day(date: int, cost: real, tokens: int)

  datatype TaskEntry = TaskEntry(taskId: int, meta: TaskMeta, stats: Stats, models: map<string, Stats>, timeline: seq<Day>)

  /** The entry of an agent or of a project. */
  datatype GroupEntry = GroupEntry(stats: Stats, taskCount: nat, taskIds: seq<int>)

  datatype ProjectKey = Unscoped | Project(id: int)

  datatype Report = Report(
    summary: Stats, tasks: seq<TaskEntry>, agents: map<string, GroupEntry>, projects: map<ProjectKey, GroupEntry>, unattributed: Stats)

  // ---------------------------------------------------------------------------
  // Totals

  /** What a list of records adds up to. */
  datatype Total = Total(tokens: int, cost: real, requests: nat)

  function Add(a: Total, b: Total): Total {
    Total(a.tokens + b.tokens, a.cost + b.cost, a.requests + b.requests)
  }

  function TotalOf(records: seq<Record>): Total {
    if records == [] then Total(0, 0.0, 0)
    else
      var last := records[|records| - 1];
      Add(TotalOf(records[..|records| - 1]), Total(last.tokens, last.cost, 1))
  }

  lemma {:induction false} TotalCounts(records: seq<Record>)
    ensures TotalOf(records).requests == |records|
  {
    if records != [] {
      TotalCounts(records[..|records| - 1]);
    }
  }

  lemma TotalSnoc(records: seq<Record>, last: Record)
    ensures TotalOf(records + [last]) == Add(TotalOf(records), Total(last.tokens, last.cost, 1))
  {
    assert (records + [last])[..|records|] == records;
  }

  lemma EmptyTotal()
    ensures TotalOf([]) == Total(0, 0.0, 0)
  {
  }

  function Summed(s: Stats): Total {
    Total(s.tokens, s.cost, s.requests)
  }

  /** The average of the tokens is rounded to the nearest integer, halves upwards. */
  function CalculateStats(records: seq<Record>): (s: Stats)
    ensures Summed(s) == TotalOf(records) && s.requests == |records|
    ensures s.avgCost * s.requests as real == s.cost || records == []
    ensures records != [] ==> 2 * s.tokens - s.requests < 2 * s.avgTokens * s.requests <= 2 * s.tokens + s.requests
  {
    if records == [] then Stats(0, 0.0, 0, 0, 0.0)
    else
      var total := TotalOf(records);
      TotalCounts(records);
      Stats(total.tokens, total.cost, |records|,
            (2 * total.tokens + |records|) / (2 * |records|), total.cost / |records| as real)
  }

  // ---------------------------------------------------------------------------
  // Groups

  function Filter(records: seq<Record>, p: Record -> bool): seq<Record> {
    if records == [] then []
    else
      var last := records[|records| - 1];
      Filter(records[..|records| - 1], p) + if p(last) then [last] else []
  }

  lemma {:induction false} Kept(records: seq<Record>, p: Record -> bool)
    ensures forall r :: r in Filter(records, p) <==> r in records && p(r)
  {
    if records != [] {
      Kept(records[..|records| - 1], p);
      assert records == records[..|records| - 1] + [records[|records| - 1]];
    }
  }

  /** The group of a record; a record without one is skipped. */
  type Key<!K> = Record -> Option<K>

  function By<K(==)>(key: Key<K>, k: K): Record -> bool {
    (r: Record) => key(r) == Some(k)
  }

  function Keyed<K>(key: Key<K>): Record -> bool {
    (r: Record) => key(r).Some?
  }

  function Select<K(==)>(records: seq<Record>, key: Key<K>, k: K): seq<Record> {
    Filter(records, By(key, k))
  }

  ghost predicate IsGrouping<K(!new)>(groups: map<K, seq<Record>>, records: seq<Record>, key: Key<K>) {
    && (forall k :: k in groups <==> Select(records, key, k) != [])
    && (forall k :: k in groups ==> groups[k] == Select(records, key, k))
  }

  method GroupBy<K(==, !new)>(records: seq<Record>, key: Key<K>) returns (groups: map<K, seq<Record>>)
    ensures IsGrouping(groups, records, key)
  {
    groups := map[];
    for i := 0 to |records|
      invariant IsGrouping(groups, records[..i], key)
    {
      var record := records[i];
      assert records[..i + 1][..i] == records[..i];
      if key(record).Some? {
        var k := key(record).value;
        if k !in groups {
          groups := groups[k := []];
        }
        groups := groups[k := groups[k] + [record]];
      }
    }
    assert records[..|records|] == records;
  }

  function ModelKey(): Key<string> {
    (r: Record) => Some(r.model)
  }

  /** The day of a record in UTC, as the number of days since 1970. */
  function DayKey(): Key<int> {
    (r: Record) => Some(r.timestamp / 86_400_000)
  }

  /** The task of a record, if it names one that has metadata. */
  function TaskKey(metadata: map<int, TaskMeta>): Key<int> {
    (r: Record) => if r.taskId.Some? && r.taskId.value in metadata then r.taskId else None
  }

  function AgentKey(metadata: map<int, TaskMeta>): Key<string> {
    (r: Record) => if r.taskId.Some? && r.taskId.value in metadata then Some(r.agent) else None
  }

  /** A missing project id and the id 0 are both unscoped. */
  function ProjectOf(meta: TaskMeta): ProjectKey {
    if meta.projectId.Some? && meta.projectId.value != 0 then Project(meta.projectId.value) else Unscoped
  }

  function TaskProjectKey(metadata: map<int, TaskMeta>): Key<ProjectKey> {
    (r: Record) => if r.taskId.Some? && r.taskId.value in metadata then Some(ProjectOf(metadata[r.taskId.value])) else None
  }

  lemma SelectSnoc<K>(records: seq<Record>, i: nat, key: Key<K>, k: K)
    requires i < |records|
    ensures Select(records[..i + 1], key, k) ==
      if key(records[i]) == Some(k) then Select(records[..i], key, k) + [records[i]] else Select(records[..i], key, k)
  {
    assert records[..i + 1][..i] == records[..i];
  }

  // ---------------------------------------------------------------------------
  // Sorting keys

  predicate ListsOnce<K(==)>(ks: seq<K>, keys: set<K>) {
    && (forall i, j :: 0 <= i < j < |ks| ==> ks[i] != ks[j])
    && (forall k :: k in keys ==> k in ks)
    && (forall k :: k in ks ==> k in keys)
  }

  ghost predicate StrictOrder<K(!new)>(less: (K, K) -> bool) {
    && (forall a :: !less(a, a))
    && (forall a, b :: a == b || less(a, b) || less(b, a))
    && (forall a, b, c :: less(a, b) && less(b, c) ==> less(a, c))
  }

  predicate Ordered<K>(ks: seq<K>, less: (K, K) -> bool) {
    forall i, j :: 0 <= i < j < |ks| ==> less(ks[i], ks[j])
  }

  method SortKeys<K(==, !new)>(keys: set<K>, less: (K, K) -> bool) returns (ks: seq<K>)
    requires StrictOrder(less)
    ensures ListsOnce(ks, keys) && Ordered(ks, less)
  {
    ks := [];
    var rest := keys;
    while rest != {}
      invariant rest <= keys && ListsOnce(ks, keys - rest) && Ordered(ks, less)
    {
      var k :| k in rest;
      var j := 0;
      while j < |ks| && less(ks[j], k)
        invariant j <= |ks| && forall i :: 0 <= i < j ==> less(ks[i], k)
      {
        j := j + 1;
      }
      assert forall i :: j <= i < |ks| ==> less(k, ks[i]);
      assert forall x :: x in ks[..j] + [k] + ks[j..] <==> x in ks || x == k by {
        assert ks == ks[..j] + ks[j..];
      }
      ks := ks[..j] + [k] + ks[j..];
      rest := rest - {k};
    }
  }

  // ---------------------------------------------------------------------------
  // The breakdowns of a task

  ghost predicate AreModelStats(models: map<string, Stats>, records: seq<Record>) {
    && (forall m :: m in models <==> Select(records, ModelKey(), m) != [])
    && (forall m :: m in models ==> models[m] == CalculateStats(Select(records, ModelKey(), m)))
  }

  method GroupByModel(records: seq<Record>) returns (models: map<string, Stats>)
    ensures AreModelStats(models, records)
  {
    var groups := GroupBy(records, ModelKey());
    models := map m | m in groups :: CalculateStats(groups[m]);
  }

  predicate IsDay(d: Day, records: seq<Record>) {
    var own := Select(records, DayKey(), d.date);
    own != [] && d.cost == TotalOf(own).cost && d.tokens == TotalOf(own).tokens
  }

  predicate IsTimeline(days: seq<Day>, records: seq<Record>) {
    && (forall i :: 0 <= i < |days| ==> IsDay(days[i], records))
    && (forall i, j :: 0 <= i < j < |days| ==> days[i].date < days[j].date)
    && (forall r :: r in records ==> exists i :: 0 <= i < |days| && DayKey()(r) == Some(days[i].date))
  }

  ghost predicate AreDayTotals(byDate: map<int, (real, int)>, records: seq<Record>) {
    && (forall d :: d in byDate <==> Select(records, DayKey(), d) != [])
    && (forall d :: d in byDate ==> byDate[d] == (TotalOf(Select(records, DayKey(), d)).cost, TotalOf(Select(records, DayKey(), d)).tokens))
  }

  lemma DayTotalStep(records: seq<Record>, i: nat, byDate: map<int, (real, int)>)
    requires i < |records| && AreDayTotals(byDate, records[..i])
    ensures var r := records[i]; var date := r.timestamp / 86_400_000;
      var (cost, tokens) := if date in byDate then byDate[date] else (0.0, 0);
      AreDayTotals(byDate[date := (cost + r.cost, tokens + r.tokens)], records[..i + 1])
  {
    hide Filter, TotalOf;
    var r := records[i];
    forall d
      ensures var own, own' := Select(records[..i], DayKey(), d), Select(records[..i + 1], DayKey(), d);
        if d == r.timestamp / 86_400_000 then own' == own + [r] && TotalOf(own') == Add(TotalOf(own), Total(r.tokens, r.cost, 1)) else own' == own
    {
      SelectSnoc(records, i, DayKey(), d);
      TotalSnoc(Select(records[..i], DayKey(), d), r);
    }
    EmptyTotal();
  }

  method TotalsByDate(records: seq<Record>) returns (byDate: map<int, (real, int)>)
    ensures AreDayTotals(byDate, records)
  {
    byDate := map[];
    for i := 0 to |records|
      invariant AreDayTotals(byDate, records[..i])
    {
      hide AreDayTotals;
      var record := records[i];
      DayTotalStep(records, i, byDate);
      var date := record.timestamp / 86_400_000;
      if date !in byDate {
        byDate := byDate[date := (0.0, 0)];
      }
      byDate := byDate[date := (byDate[date].0 + record.cost, byDate[date].1 + record.tokens)];
    }
    assert records[..|records|] == records;
  }

  method BuildTimeline(records: seq<Record>) returns (days: seq<Day>)
    ensures IsTimeline(days, records)
  {
    hide TotalOf;
    var byDate := TotalsByDate(records);
    var dates := SortKeys(byDate.Keys, (a: int, b: int) => a < b);
    days := seq(|dates|, i requires 0 <= i < |dates| => Day(dates[i], byDate[dates[i]].0, byDate[dates[i]].1));
    forall r | r in records
      ensures exists i :: 0 <= i < |days| && DayKey()(r) == Some(days[i].date)
    {
      var date := DayKey()(r).value;
      Kept(records, By(DayKey(), date));
      assert r in Select(records, DayKey(), date);
      assert date in dates;
      var i :| 0 <= i < |dates| && dates[i] == date;
      assert days[i].date == date;
    }
  }

  // ---------------------------------------------------------------------------
  // The report

  function TaskIds(records: seq<Record>): set<int> {
    set r | r in records && r.taskId.Some? :: r.taskId.value
  }

  ghost predicate IsTaskEntry(e: TaskEntry, records: seq<Record>, metadata: map<int, TaskMeta>) {
    var own := Select(records, TaskKey(metadata), e.taskId);
    && own != []
    && e.taskId in metadata && e.meta == metadata[e.taskId]
    && e.stats == CalculateStats(own)
    && AreModelStats(e.models, own)
    && IsTimeline(e.timeline, own)
  }

  predicate IsGroupEntry(e: GroupEntry, own: seq<Record>) {
    && e.stats == CalculateStats(own)
    && e.taskCount == |e.taskIds|
    && (forall i, j :: 0 <= i < j < |e.taskIds| ==> e.taskIds[i] < e.taskIds[j])
    && (forall t :: t in e.taskIds ==> t in TaskIds(own))
    && (forall t :: t in TaskIds(own) ==> t in e.taskIds)
  }

  ghost predicate AreGroupEntries<K(!new)>(entries: map<K, GroupEntry>, records: seq<Record>, key: Key<K>) {
    && (forall k :: k in entries <==> Select(records, key, k) != [])
    && (forall k :: k in entries ==> IsGroupEntry(entries[k], Select(records, key, k)))
  }

  /** Most expensive first; equal costs are in the order of the ids. */
  predicate Before(a: TaskEntry, b: TaskEntry) {
    a.stats.cost > b.stats.cost || (a.stats.cost == b.stats.cost && a.taskId < b.taskId)
  }

  ghost predicate AreTasks(tasks: seq<TaskEntry>, records: seq<Record>, metadata: map<int, TaskMeta>) {
    && (forall i :: 0 <= i < |tasks| ==> IsTaskEntry(tasks[i], records, metadata))
    && (forall i, j :: 0 <= i < j < |tasks| ==> Before(tasks[i], tasks[j]))
    && (forall t :: Select(records, TaskKey(metadata), t) != [] ==> exists i :: 0 <= i < |tasks| && tasks[i].taskId == t)
  }

  function Attributed(): Record -> bool {
    (r: Record) => r.taskId.Some?
  }

  function Unattributed(): Record -> bool {
    (r: Record) => r.taskId.None?
  }

  /** A record that names a task without metadata. */
  function Unknown(metadata: map<int, TaskMeta>): Record -> bool {
    (r: Record) => r.taskId.Some? && r.taskId.value !in metadata
  }

  ghost predicate IsReport(report: Report, records: seq<Record>, metadata: map<int, TaskMeta>) {
    && report.summary == CalculateStats(Filter(records, Keyed(TaskKey(metadata))))
    && report.unattributed == CalculateStats(Filter(records, Unattributed()))
    && AreTasks(report.tasks, records, metadata)
    && AreGroupEntries(report.agents, records, AgentKey(metadata))
    && AreGroupEntries(report.projects, records, TaskProjectKey(metadata))
  }

  function CostIn(groups: map<int, seq<Record>>, t: int): real {
    if t in groups then CalculateStats(groups[t]).cost else 0.0
  }

  method BuildTask(taskId: int, own: seq<Record>, metadata: map<int, TaskMeta>, ghost records: seq<Record>) returns (e: TaskEntry)
    requires own != [] && own == Select(records, TaskKey(metadata), taskId)
    ensures e.taskId == taskId && e.stats == CalculateStats(own) && IsTaskEntry(e, records, metadata)
  {
    Kept(records, By(TaskKey(metadata), taskId));
    assert own[0] in own;
    hide Filter, IsTimeline, AreModelStats;
    var models := GroupByModel(own);
    var timeline := BuildTimeline(own);
    e := TaskEntry(taskId, metadata[taskId], CalculateStats(own), models, timeline);
  }

  method BuildTasks(byTask: map<int, seq<Record>>, metadata: map<int, TaskMeta>, ghost records: seq<Record>) returns (tasks: seq<TaskEntry>)
    requires IsGrouping(byTask, records, TaskKey(metadata))
    ensures AreTasks(tasks, records, metadata)
  {
    hide Filter, IsTaskEntry, CalculateStats;
    var ids := SortKeys(byTask.Keys, (a: int, b: int) => CostIn(byTask, a) > CostIn(byTask, b) || (CostIn(byTask, a) == CostIn(byTask, b) && a < b));
    tasks := [];
    for i := 0 to |ids|
      invariant |tasks| == i
      invariant forall j :: 0 <= j < i ==> tasks[j].taskId == ids[j] && IsTaskEntry(tasks[j], records, metadata)
      invariant forall j :: 0 <= j < i ==> tasks[j].stats.cost == CostIn(byTask, ids[j])
    {
      var e := BuildTask(ids[i], byTask[ids[i]], metadata, records);
      tasks := tasks + [e];
    }
    forall t | t in byTask
      ensures exists i :: 0 <= i < |tasks| && tasks[i].taskId == t
    {
      var i :| 0 <= i < |ids| && ids[i] == t;
      assert tasks[i].taskId == t;
    }
  }

  predicate Names(records: seq<Record>, agent: string) {
    exists i :: 0 <= i < |records| && records[i].agent == agent
  }

  predicate Worked(byTask: map<int, seq<Record>>, agent: string, t: int) {
    t in byTask && Names(byTask[t], agent)
  }

  predicate Has<K(==)>(ids: map<K, set<int>>, k: K, t: int) {
    k in ids && t in ids[k]
  }

  /** The tasks that each agent worked on. */
  method AgentTaskIds(tasks: seq<TaskEntry>, byTask: map<int, seq<Record>>) returns (ids: map<string, set<int>>)
    requires forall i :: 0 <= i < |tasks| ==> tasks[i].taskId in byTask
    ensures forall a, t :: Has(ids, a, t) <==> Worked(byTask, a, t) && exists i :: 0 <= i < |tasks| && tasks[i].taskId == t
    ensures forall a :: a in ids ==> ids[a] != {}
  {
    ids := map[];
    for i := 0 to |tasks|
      invariant forall a, t :: Has(ids, a, t) <==> Worked(byTask, a, t) && exists i' :: 0 <= i' < i && tasks[i'].taskId == t
      invariant forall a :: a in ids ==> ids[a] != {}
    {
      ids := AddAgents(ids, tasks[i].taskId, byTask[tasks[i].taskId]);
    }
  }

  method AddAgents(before: map<string, set<int>>, taskId: int, records: seq<Record>) returns (ids: map<string, set<int>>)
    ensures forall a, t :: Has(ids, a, t) <==> Has(before, a, t) || (t == taskId && Names(records, a))
    ensures (forall a :: a in before ==> before[a] != {}) ==> forall a :: a in ids ==> ids[a] != {}
  {
    ids := before;
    for j := 0 to |records|
      invariant forall a, t :: Has(ids, a, t) <==> Has(before, a, t) || (t == taskId && Names(records[..j], a))
      invariant (forall a :: a in before ==> before[a] != {}) ==> forall a :: a in ids ==> ids[a] != {}
    {
      var agent := records[j].agent;
      forall a
        ensures Names(records[..j + 1], a) <==> Names(records[..j], a) || a == agent
      {
        assert records[..j + 1][j] == records[j];
        assert forall i :: 0 <= i < j ==> records[..j + 1][i] == records[..j][i];
      }
      ghost var was := ids;
      if agent !in ids {
        ids := ids[agent := {}];
      }
      ids := ids[agent := ids[agent] + {taskId}];
      assert forall a, t :: Has(ids, a, t) <==> Has(was, a, t) || (t == taskId && a == agent);
    }
    assert records[..|records|] == records;
  }

  method ProjectTaskIds<K(==, !new)>(records: seq<Record>, key: Key<K>) returns (ids: map<K, set<int>>)
    requires forall r :: key(r).Some? ==> r.taskId.Some?
    ensures forall k :: k in ids <==> Select(records, key, k) != []
    ensures forall k :: k in ids ==> ids[k] == TaskIds(Select(records, key, k))
  {
    ids := map[];
    for i := 0 to |records|
      invariant forall k :: k in ids <==> Select(records[..i], key, k) != []
      invariant forall k :: k in ids ==> ids[k] == TaskIds(Select(records[..i], key, k))
    {
      var record := records[i];
      assert records[..i + 1][..i] == records[..i];
      if key(record).Some? {
        var k := key(record).value;
        if k !in ids {
          ids := ids[k := {}];
        }
        ids := ids[k := ids[k] + {record.taskId.value}];
      }
    }
    assert records[..|records|] == records;
  }

  method SummarizeGroups<K(==, !new)>(groups: map<K, seq<Record>>, ids: map<K, set<int>>, ghost records: seq<Record>, ghost key: Key<K>)
    returns (entries: map<K, GroupEntry>)
    requires IsGrouping(groups, records, key)
    requires forall k :: k in groups ==> k in ids && ids[k] == TaskIds(groups[k])
    ensures AreGroupEntries(entries, records, key)
  {
    entries := map[];
    var rest := groups.Keys;
    while rest != {}
      invariant rest <= groups.Keys && entries.Keys == groups.Keys - rest
      invariant forall k :: k in entries ==> IsGroupEntry(entries[k], groups[k])
    {
      var k :| k in rest;
      var taskIds := SortKeys(ids[k], (a: int, b: int) => a < b);
      entries := entries[k := GroupEntry(CalculateStats(groups[k]), |taskIds|, taskIds)];
      rest := rest - {k};
    }
  }

  method BuildTaskCostReport(records: seq<Record>, metadata: map<int, TaskMeta>) returns (report: Report)
    ensures IsReport(report, records, metadata)
  {
    var attributed := Filter(records, Attributed());
    var unattributed := Filter(records, Unattributed());
    AttributedGroups(records, TaskKey(metadata));
    AttributedGroups(records, AgentKey(metadata));
    AttributedGroups(records, TaskProjectKey(metadata));

    var byTask := GroupBy(attributed, TaskKey(metadata));
    var tasks := BuildTasks(byTask, metadata, records);

    var byAgent := GroupBy(attributed, AgentKey(metadata));
    var agentTaskIds := AgentTaskIds(tasks, byTask);
    AgentsOfTasks(byTask, byAgent, agentTaskIds, records, metadata);
    var agents := SummarizeGroups(byAgent, agentTaskIds, records, AgentKey(metadata));

    var byProject := GroupBy(attributed, TaskProjectKey(metadata));
    var projectTaskIds := ProjectTaskIds(attributed, TaskProjectKey(metadata));
    var projects := SummarizeGroups(byProject, projectTaskIds, records, TaskProjectKey(metadata));

    report := Report(CalculateStats(Filter(attributed, Keyed(TaskKey(metadata)))), tasks, agents, projects, CalculateStats(unattributed));
  }

  /** Collecting an agent's tasks from the tasks' records gives the tasks of the agent's own records. */
  lemma AgentsOfTasks(byTask: map<int, seq<Record>>, byAgent: map<string, seq<Record>>, ids: map<string, set<int>>, records: seq<Record>,
                      metadata: map<int, TaskMeta>)
    requires IsGrouping(byTask, records, TaskKey(metadata)) && IsGrouping(byAgent, records, AgentKey(metadata))
    requires forall a, t :: Has(ids, a, t) <==> Worked(byTask, a, t)
    ensures forall a :: a in byAgent ==> a in ids && ids[a] == TaskIds(byAgent[a])
  {
    hide Filter;
    forall a | a in byAgent
      ensures a in ids && ids[a] == TaskIds(byAgent[a])
    {
      Kept(records, By(AgentKey(metadata), a));
      var r := byAgent[a][0];
      assert r in byAgent[a];
      AgentOfTask(byTask, byAgent, records, metadata, a, r.taskId.value);
      assert Has(ids, a, r.taskId.value);
      forall t
        ensures t in ids[a] <==> t in TaskIds(byAgent[a])
      {
        AgentOfTask(byTask, byAgent, records, metadata, a, t);
        assert Has(ids, a, t) <==> t in ids[a];
      }
    }
  }

  lemma AgentOfTask(byTask: map<int, seq<Record>>, byAgent: map<string, seq<Record>>, records: seq<Record>, metadata: map<int, TaskMeta>, a: string, t: int)
    requires IsGrouping(byTask, records, TaskKey(metadata)) && IsGrouping(byAgent, records, AgentKey(metadata))
    requires a in byAgent
    ensures Worked(byTask, a, t) <==> t in TaskIds(byAgent[a])
  {
    hide Filter;
    Kept(records, By(AgentKey(metadata), a));
    Kept(records, By(TaskKey(metadata), t));
    if t in TaskIds(byAgent[a]) {
      var r :| r in byAgent[a] && r.taskId == Some(t);
      assert r in Select(records, TaskKey(metadata), t);
    }
    if Worked(byTask, a, t) {
      var i :| 0 <= i < |byTask[t]| && byTask[t][i].agent == a;
      var r := byTask[t][i];
      assert r in byTask[t];
      assert r in Select(records, AgentKey(metadata), a) && r.taskId == Some(t);
    }
  }

  // ---------------------------------------------------------------------------
  // Filters

  lemma {:induction false} FilterTwice(records: seq<Record>, p: Record -> bool, q: Record -> bool)
    requires forall r :: r in records && q(r) ==> p(r)
    ensures Filter(Filter(records, p), q) == Filter(records, q)
  {
    if records != [] {
      var n := |records| - 1;
      FilterTwice(records[..n], p, q);
      hide Filter;
      FilterSnoc(records, p);
      FilterSnoc(records, q);
      assert records[n] in records;
      var f := Filter(records[..n], p);
      if p(records[n]) {
        FilterSnoc(f + [records[n]], q);
        assert (f + [records[n]])[..|f|] == f;
      }
    }
  }

  lemma AttributedGroups<K(!new)>(records: seq<Record>, key: Key<K>)
    requires forall r :: key(r).Some? ==> r.taskId.Some?
    ensures Filter(Filter(records, Attributed()), Keyed(key)) == Filter(records, Keyed(key))
    ensures forall k :: Select(Filter(records, Attributed()), key, k) == Select(records, key, k)
  {
    FilterTwice(records, Attributed(), Keyed(key));
    forall k ensures Select(Filter(records, Attributed()), key, k) == Select(records, key, k) {
      FilterTwice(records, Attributed(), By(key, k));
    }
  }

  lemma FilterSnoc(records: seq<Record>, p: Record -> bool)
    requires records != []
    ensures var n := |records| - 1; Filter(records, p) == if p(records[n]) then Filter(records[..n], p) + [records[n]] else Filter(records[..n], p)
  {
  }

  lemma FilterTotal(records: seq<Record>, p: Record -> bool)
    requires records != []
    ensures var last := records[|records| - 1];
      TotalOf(Filter(records, p)) ==
        if p(last) then Add(TotalOf(Filter(records[..|records| - 1], p)), Total(last.tokens, last.cost, 1))
        else TotalOf(Filter(records[..|records| - 1], p))
  {
    hide Filter;
    FilterSnoc(records, p);
    TotalSnoc(Filter(records[..|records| - 1], p), records[|records| - 1]);
  }

  /** Two filters that split a third one split its records. */
  lemma {:induction false} FilterSplit(records: seq<Record>, whole: Record -> bool, p: Record -> bool, q: Record -> bool)
    requires forall r :: r in records ==> Splits(r, whole, p, q)
    ensures multiset(Filter(records, whole)) == multiset(Filter(records, p)) + multiset(Filter(records, q))
  {
    if records != [] {
      var n := |records| - 1;
      FilterSplit(records[..n], whole, p, q);
      hide Filter;
      FilterSnoc(records, whole);
      FilterSnoc(records, p);
      FilterSnoc(records, q);
      assert records[n] in records;
    }
  }

  predicate Splits(r: Record, whole: Record -> bool, p: Record -> bool, q: Record -> bool) {
    (whole(r) <==> p(r) || q(r)) && !(p(r) && q(r))
  }

  /** … and its total. */
  lemma {:induction false} TotalSplit(records: seq<Record>, whole: Record -> bool, p: Record -> bool, q: Record -> bool)
    requires forall r :: r in records ==> Splits(r, whole, p, q)
    ensures TotalOf(Filter(records, whole)) == Add(TotalOf(Filter(records, p)), TotalOf(Filter(records, q)))
  {
    hide Filter, TotalOf, Splits;
    if records == [] {
      NothingTotals(whole);
      NothingTotals(p);
      NothingTotals(q);
    } else {
      TotalSplit(records[..|records| - 1], whole, p, q);
      assert Splits(records[|records| - 1], whole, p, q);
      TotalSplitStep(records, whole, p, q);
    }
  }

  lemma NothingTotals(p: Record -> bool)
    ensures TotalOf(Filter([], p)) == Total(0, 0.0, 0)
  {
  }

  lemma TotalSplitStep(records: seq<Record>, whole: Record -> bool, p: Record -> bool, q: Record -> bool)
    requires records != [] && Splits(records[|records| - 1], whole, p, q)
    requires var before := records[..|records| - 1];
      TotalOf(Filter(before, whole)) == Add(TotalOf(Filter(before, p)), TotalOf(Filter(before, q)))
    ensures TotalOf(Filter(records, whole)) == Add(TotalOf(Filter(records, p)), TotalOf(Filter(records, q)))
  {
    hide Filter, TotalOf;
    FilterTotal(records, whole);
    FilterTotal(records, p);
    FilterTotal(records, q);
  }

  lemma NoneKept(records: seq<Record>, p: Record -> bool)
    requires forall r :: r in records ==> !p(r)
    ensures Filter(records, p) == []
  {
    Kept(records, p);
    assert forall r :: r !in Filter(records, p);
  }

  lemma {:induction false} FilterAgrees(records: seq<Record>, p: Record -> bool, q: Record -> bool)
    requires forall r :: r in records ==> (p(r) <==> q(r))
    ensures Filter(records, p) == Filter(records, q)
  {
    if records != [] {
      FilterAgrees(records[..|records| - 1], p, q);
    }
  }

  // ---------------------------------------------------------------------------
  // Conservation

  /** The sum of the parts of the listed groups. */
  function SumOver<K>(ks: seq<K>, part: K -> Total): Total {
    if ks == [] then Total(0, 0.0, 0) else Add(SumOver(ks[..|ks| - 1], part), part(ks[|ks| - 1]))
  }

  function PartOf<K(==)>(records: seq<Record>, key: Key<K>): K -> Total {
    k => TotalOf(Select(records, key, k))
  }

  function In<K(==)>(key: Key<K>, ks: seq<K>): Record -> bool {
    (r: Record) => key(r).Some? && key(r).value in ks
  }

  lemma {:induction false} PartsSum<K>(records: seq<Record>, key: Key<K>, ks: seq<K>)
    requires forall i, j :: 0 <= i < j < |ks| ==> ks[i] != ks[j]
    ensures SumOver(ks, PartOf(records, key)) == TotalOf(Filter(records, In(key, ks)))
  {
    hide Filter, TotalOf;
    if ks == [] {
      NoneKept(records, In(key, ks));
      EmptyTotal();
    } else {
      var n := |ks| - 1;
      PartsSum(records, key, ks[..n]);
      assert ks == ks[..n] + [ks[n]];
      assert forall r :: Splits(r, In(key, ks), In(key, ks[..n]), By(key, ks[n]));
      TotalSplit(records, In(key, ks), In(key, ks[..n]), By(key, ks[n]));
      assert PartOf(records, key)(ks[n]) == TotalOf(Filter(records, By(key, ks[n])));
    }
  }

  /** The groups together have every record that has a group, once. */
  lemma GroupsConserve<K(!new)>(records: seq<Record>, key: Key<K>, ks: seq<K>)
    requires forall i, j :: 0 <= i < j < |ks| ==> ks[i] != ks[j]
    requires forall k :: Select(records, key, k) != [] ==> k in ks
    ensures SumOver(ks, PartOf(records, key)) == TotalOf(Filter(records, Keyed(key)))
  {
    PartsSum(records, key, ks);
    forall r | r in records
      ensures Keyed(key)(r) <==> In(key, ks)(r)
    {
      if key(r).Some? {
        Kept(records, By(key, key(r).value));
        assert r in Select(records, key, key(r).value);
      }
    }
    FilterAgrees(records, Keyed(key), In(key, ks));
  }

  lemma {:induction false} SumOverAgrees<K>(ks: seq<K>, p: K -> Total, q: K -> Total)
    requires forall k :: k in ks ==> p(k) == q(k)
    ensures SumOver(ks, p) == SumOver(ks, q)
  {
    if ks != [] {
      SumOverAgrees(ks[..|ks| - 1], p, q);
    }
  }

  function TaskTotal(tasks: seq<TaskEntry>): Total {
    if tasks == [] then Total(0, 0.0, 0) else Add(TaskTotal(tasks[..|tasks| - 1]), Summed(tasks[|tasks| - 1].stats))
  }

  function EntryPart<K(==)>(entries: map<K, GroupEntry>): K -> Total {
    k => if k in entries then Summed(entries[k].stats) else Total(0, 0.0, 0)
  }

  function ModelPart(models: map<string, Stats>): string -> Total {
    m => if m in models then Summed(models[m]) else Total(0, 0.0, 0)
  }

  function TimelineTotal(days: seq<Day>): (int, real) {
    if days == [] then (0, 0.0)
    else
      var before, last := TimelineTotal(days[..|days| - 1]), days[|days| - 1];
      (before.0 + last.tokens, before.1 + last.cost)
  }

  lemma {:induction false} TaskTotalIsSum(tasks: seq<TaskEntry>, records: seq<Record>, metadata: map<int, TaskMeta>, ids: seq<int>)
    requires |ids| == |tasks|
    requires forall i :: 0 <= i < |tasks| ==> ids[i] == tasks[i].taskId && IsTaskEntry(tasks[i], records, metadata)
    ensures TaskTotal(tasks) == SumOver(ids, PartOf(records, TaskKey(metadata)))
  {
    if tasks != [] {
      var n := |tasks| - 1;
      TaskTotalIsSum(tasks[..n], records, metadata, ids[..n]);
      assert IsTaskEntry(tasks[n], records, metadata);
    }
  }

  /** The tasks of a report add up to its summary. */
  lemma TasksConserve(report: Report, records: seq<Record>, metadata: map<int, TaskMeta>)
    requires IsReport(report, records, metadata)
    ensures TaskTotal(report.tasks) == Summed(report.summary)
  {
    var tasks := report.tasks;
    var ids := seq(|tasks|, i requires 0 <= i < |tasks| => tasks[i].taskId);
    TaskTotalIsSum(tasks, records, metadata, ids);
    forall i, j | 0 <= i < j < |ids|
      ensures ids[i] != ids[j]
    {
      assert Before(tasks[i], tasks[j]);
      assert IsTaskEntry(tasks[i], records, metadata) && IsTaskEntry(tasks[j], records, metadata);
    }
    forall t | Select(records, TaskKey(metadata), t) != []
      ensures t in ids
    {
      var i :| 0 <= i < |tasks| && tasks[i].taskId == t;
      assert ids[i] == t;
    }
    GroupsConserve(records, TaskKey(metadata), ids);
  }

  lemma EntriesConserve<K(!new)>(entries: map<K, GroupEntry>, records: seq<Record>, key: Key<K>, ks: seq<K>)
    requires AreGroupEntries(entries, records, key)
    requires ListsOnce(ks, entries.Keys)
    ensures SumOver(ks, EntryPart(entries)) == TotalOf(Filter(records, Keyed(key)))
  {
    forall k | k in ks
      ensures EntryPart(entries)(k) == PartOf(records, key)(k)
    {
      assert IsGroupEntry(entries[k], Select(records, key, k));
    }
    SumOverAgrees(ks, EntryPart(entries), PartOf(records, key));
    GroupsConserve(records, key, ks);
  }

  /** The agents, in any order, add up to the summary. */
  lemma AgentsConserve(report: Report, records: seq<Record>, metadata: map<int, TaskMeta>, agents: seq<string>)
    requires IsReport(report, records, metadata) && ListsOnce(agents, report.agents.Keys)
    ensures SumOver(agents, EntryPart(report.agents)) == Summed(report.summary)
  {
    hide AreTasks, Filter, SumOver;
    EntriesConserve(report.agents, records, AgentKey(metadata), agents);
    FilterAgrees(records, Keyed(AgentKey(metadata)), Keyed(TaskKey(metadata)));
  }

  /** The projects, in any order, add up to the summary. */
  lemma ProjectsConserve(report: Report, records: seq<Record>, metadata: map<int, TaskMeta>, projects: seq<ProjectKey>)
    requires IsReport(report, records, metadata) && ListsOnce(projects, report.projects.Keys)
    ensures SumOver(projects, EntryPart(report.projects)) == Summed(report.summary)
  {
    hide AreTasks, Filter, SumOver;
    EntriesConserve(report.projects, records, TaskProjectKey(metadata), projects);
    FilterAgrees(records, Keyed(TaskProjectKey(metadata)), Keyed(TaskKey(metadata)));
  }

  /** The models of a list of records add up to its total. */
  lemma ModelsConserve(models: map<string, Stats>, records: seq<Record>, ms: seq<string>)
    requires AreModelStats(models, records) && ListsOnce(ms, models.Keys)
    ensures SumOver(ms, ModelPart(models)) == TotalOf(records)
  {
    SumOverAgrees(ms, ModelPart(models), PartOf(records, ModelKey()));
    GroupsConserve(records, ModelKey(), ms);
    FilterAll(records, Keyed(ModelKey()));
  }

  lemma {:induction false} FilterAll(records: seq<Record>, p: Record -> bool)
    requires forall r :: r in records ==> p(r)
    ensures Filter(records, p) == records
  {
    if records != [] {
      var n := |records| - 1;
      FilterAll(records[..n], p);
      assert records == records[..n] + [records[n]];
    }
  }

  lemma {:induction false} TimelineIsSum(days: seq<Day>, records: seq<Record>, dates: seq<int>)
    requires |dates| == |days|
    requires forall i :: 0 <= i < |days| ==> dates[i] == days[i].date && IsDay(days[i], records)
    ensures var sum := SumOver(dates, PartOf(records, DayKey())); TimelineTotal(days) == (sum.tokens, sum.cost)
  {
    if days != [] {
      var n := |days| - 1;
      TimelineIsSum(days[..n], records, dates[..n]);
      assert IsDay(days[n], records);
    }
  }

  /** The days of a timeline add up to the tokens and the cost of its records. */
  lemma TimelineConserves(days: seq<Day>, records: seq<Record>)
    requires IsTimeline(days, records)
    ensures TimelineTotal(days) == (TotalOf(records).tokens, TotalOf(records).cost)
  {
    var dates := seq(|days|, i requires 0 <= i < |days| => days[i].date);
    TimelineIsSum(days, records, dates);
    forall d | Select(records, DayKey(), d) != []
      ensures d in dates
    {
      Kept(records, By(DayKey(), d));
      var r := Select(records, DayKey(), d)[0];
      assert r in Select(records, DayKey(), d);
      var i :| 0 <= i < |days| && DayKey()(r) == Some(days[i].date);
      assert dates[i] == d;
    }
    GroupsConserve(records, DayKey(), dates);
    FilterAll(records, Keyed(DayKey()));
  }

  /** Both breakdowns of a task add up to the task's own totals. */
  lemma BreakdownsConserve(report: Report, records: seq<Record>, metadata: map<int, TaskMeta>, i: nat, ms: seq<string>)
    requires IsReport(report, records, metadata)
    requires i < |report.tasks| && ListsOnce(ms, report.tasks[i].models.Keys)
    ensures SumOver(ms, ModelPart(report.tasks[i].models)) == Summed(report.tasks[i].stats)
    ensures TimelineTotal(report.tasks[i].timeline) == (report.tasks[i].stats.tokens, report.tasks[i].stats.cost)
  {
    var e := report.tasks[i];
    assert IsTaskEntry(e, records, metadata);
    var own := Select(records, TaskKey(metadata), e.taskId);
    ModelsConserve(e.models, own, ms);
    TimelineConserves(e.timeline, own);
  }

  function Everything(): Record -> bool {
    (r: Record) => true
  }

  function Reported(metadata: map<int, TaskMeta>): Record -> bool {
    (r: Record) => r.taskId.None? || r.taskId.value in metadata
  }

  lemma EveryRecordSplits(metadata: map<int, TaskMeta>, r: Record)
    ensures Splits(r, Everything(), Reported(metadata), Unknown(metadata))
    ensures Splits(r, Reported(metadata), Keyed(TaskKey(metadata)), Unattributed())
  {
  }

  /** A record is reported under a task, without a task, or it names an unknown task. */
  lemma RecordsSplit(records: seq<Record>, metadata: map<int, TaskMeta>)
    ensures multiset(records) == multiset(Filter(records, Keyed(TaskKey(metadata)))) + multiset(Filter(records, Unattributed()))
                                 + multiset(Filter(records, Unknown(metadata)))
  {
    hide Filter, Splits;
    forall r {
      EveryRecordSplits(metadata, r);
    }
    FilterAll(records, Everything());
    FilterSplit(records, Everything(), Reported(metadata), Unknown(metadata));
    FilterSplit(records, Reported(metadata), Keyed(TaskKey(metadata)), Unattributed());
  }

  /** The summary, the unattributed records and those of unknown tasks account for every record once. */
  lemma EveryRecordAccounted(report: Report, records: seq<Record>, metadata: map<int, TaskMeta>)
    requires IsReport(report, records, metadata)
    ensures TotalOf(records) == Add(Add(Summed(report.summary), Summed(report.unattributed)), TotalOf(Filter(records, Unknown(metadata))))
  {
    hide Filter, TotalOf, Splits, AreTasks, AreGroupEntries;
    forall r {
      EveryRecordSplits(metadata, r);
    }
    FilterAll(records, Everything());
    TotalSplit(records, Everything(), Reported(metadata), Unknown(metadata));
    TotalSplit(records, Reported(metadata), Keyed(TaskKey(metadata)), Unattributed());
  }

  // ---------------------------------------------------------------------------
  // Which records an entry stands for

  lemma TotalOfOne(r: Record)
    ensures TotalOf([r]) == Total(r.tokens, r.cost, 1)
  {
    assert [r][..0] == [];
  }

  /** Totals of lists that are put together add up. */
  lemma {:induction false} TotalIsAdditive(a: seq<Record>, b: seq<Record>)
    ensures TotalOf(a + b) == Add(TotalOf(a), TotalOf(b))
  {
    hide TotalOf;
    if b == [] {
      assert a + b == a;
      EmptyTotal();
    } else {
      var n := |b| - 1;
      TotalIsAdditive(a, b[..n]);
      assert b == b[..n] + [b[n]] && a + b == (a + b[..n]) + [b[n]];
      TotalSnoc(b[..n], b[n]);
      TotalSnoc(a + b[..n], b[n]);
    }
  }

  predicate Known(metadata: map<int, TaskMeta>, r: Record) {
    r.taskId.Some? && r.taskId.value in metadata
  }

  function OfTask(t: int): Record -> bool {
    (r: Record) => r.taskId == Some(t)
  }

  function OfTaskAndModel(t: int, model: string): Record -> bool {
    (r: Record) => r.taskId == Some(t) && r.model == model
  }

  /** Days are counted from 1 January 1970 in UTC. */
  function OfTaskAndDay(t: int, date: int): Record -> bool {
    (r: Record) => r.taskId == Some(t) && date * 86_400_000 <= r.timestamp < (date + 1) * 86_400_000
  }

  function OfAgent(metadata: map<int, TaskMeta>, agent: string): Record -> bool {
    (r: Record) => Known(metadata, r) && r.agent == agent
  }

  /** Records of tasks without a project are together under `Unscoped`; the id 0 is none. */
  function OfProject(metadata: map<int, TaskMeta>, key: ProjectKey): Record -> bool {
    (r: Record) => Known(metadata, r) &&
      match metadata[r.taskId.value].projectId
      case None => key == Unscoped
      case Some(id) => key == if id == 0 then Unscoped else Project(id)
  }

  lemma {:induction false} NonEmptyFilter(records: seq<Record>, p: Record -> bool)
    ensures Filter(records, p) != [] <==> exists r :: r in records && p(r)
  {
    Kept(records, p);
    if Filter(records, p) != [] {
      assert Filter(records, p)[0] in Filter(records, p);
    }
  }

  lemma ModelsAreOfTheirRecords(models: map<string, Stats>, records: seq<Record>, metadata: map<int, TaskMeta>, t: int)
    requires t in metadata && AreModelStats(models, Select(records, TaskKey(metadata), t))
    ensures forall m :: m in models <==> exists r :: r in records && OfTaskAndModel(t, m)(r)
    ensures forall m :: m in models ==> models[m] == CalculateStats(Filter(records, OfTaskAndModel(t, m)))
  {
    hide Filter, CalculateStats;
    var key := TaskKey(metadata);
    forall m
      ensures Select(Select(records, key, t), ModelKey(), m) == Filter(records, OfTaskAndModel(t, m))
      ensures m in models <==> exists r :: r in records && OfTaskAndModel(t, m)(r)
    {
      FilterBoth(records, By(key, t), By(ModelKey(), m), OfTaskAndModel(t, m));
      NonEmptyFilter(records, OfTaskAndModel(t, m));
    }
  }

  lemma DayIsOfItsRecords(d: Day, records: seq<Record>, metadata: map<int, TaskMeta>, t: int)
    requires t in metadata && IsDay(d, Select(records, TaskKey(metadata), t))
    ensures var total := TotalOf(Filter(records, OfTaskAndDay(t, d.date))); d.tokens == total.tokens && d.cost == total.cost
  {
    hide Filter, TotalOf;
    FilterBoth(records, By(TaskKey(metadata), t), By(DayKey(), d.date), OfTaskAndDay(t, d.date));
  }

  lemma DaysAreListed(days: seq<Day>, records: seq<Record>, metadata: map<int, TaskMeta>, t: int)
    requires t in metadata && IsTimeline(days, Select(records, TaskKey(metadata), t))
    ensures forall r :: r in records && r.taskId == Some(t) ==> exists k :: 0 <= k < |days| && OfTaskAndDay(t, days[k].date)(r)
  {
    hide Filter, IsDay;
    Kept(records, By(TaskKey(metadata), t));
    forall r | r in records && r.taskId == Some(t)
      ensures exists k :: 0 <= k < |days| && OfTaskAndDay(t, days[k].date)(r)
    {
      assert By(TaskKey(metadata), t)(r);
      assert r in Select(records, TaskKey(metadata), t);
      var k :| 0 <= k < |days| && DayKey()(r) == Some(days[k].date);
      assert OfTaskAndDay(t, days[k].date)(r);
    }
  }

  /** A task's statistics, models and days are those of the records that name the task, and no other. */
  lemma TasksAreOfTheirRecords(report: Report, records: seq<Record>, metadata: map<int, TaskMeta>, i: nat)
    requires IsReport(report, records, metadata) && i < |report.tasks|
    ensures
      var e := report.tasks[i];
      var t := e.taskId;
      && t in metadata && e.meta == metadata[t]
      && e.stats == CalculateStats(Filter(records, OfTask(t)))
      && (forall m :: m in e.models <==> exists r :: r in records && OfTaskAndModel(t, m)(r))
      && (forall m :: m in e.models ==> e.models[m] == CalculateStats(Filter(records, OfTaskAndModel(t, m))))
      && (forall k :: 0 <= k < |e.timeline| ==>
            var total := TotalOf(Filter(records, OfTaskAndDay(t, e.timeline[k].date)));
            e.timeline[k].tokens == total.tokens && e.timeline[k].cost == total.cost)
      && (forall k, l :: 0 <= k < l < |e.timeline| ==> e.timeline[k].date < e.timeline[l].date)
      && (forall r :: r in records && r.taskId == Some(t) ==> exists k :: 0 <= k < |e.timeline| && OfTaskAndDay(t, e.timeline[k].date)(r))
  {
    var e := report.tasks[i];
    assert IsTaskEntry(e, records, metadata);
    hide IsReport, Filter, CalculateStats, TotalOf, IsDay, AreModelStats;
    FilterAgrees(records, By(TaskKey(metadata), e.taskId), OfTask(e.taskId));
    ModelsAreOfTheirRecords(e.models, records, metadata, e.taskId);
    forall k | 0 <= k < |e.timeline|
      ensures var total := TotalOf(Filter(records, OfTaskAndDay(e.taskId, e.timeline[k].date)));
        e.timeline[k].tokens == total.tokens && e.timeline[k].cost == total.cost
    {
      DayIsOfItsRecords(e.timeline[k], records, metadata, e.taskId);
    }
    DaysAreListed(e.timeline, records, metadata, e.taskId);
  }

  lemma {:induction false} FilterBoth(records: seq<Record>, p: Record -> bool, q: Record -> bool, both: Record -> bool)
    requires forall r :: both(r) <==> p(r) && q(r)
    ensures Filter(Filter(records, p), q) == Filter(records, both)
  {
    if records != [] {
      var n := |records| - 1;
      FilterBoth(records[..n], p, q, both);
      hide Filter;
      FilterSnoc(records, p);
      FilterSnoc(records, both);
      var f := Filter(records[..n], p);
      if p(records[n]) {
        FilterSnoc(f + [records[n]], q);
        assert (f + [records[n]])[..|f|] == f;
      }
    } else {
      NothingKept(p);
      NothingKept(q);
      NothingKept(both);
    }
  }

  lemma NothingKept(p: Record -> bool)
    ensures Filter([], p) == []
  {
  }

  /** There is a task entry exactly for each task that has metadata and a record. */
  lemma TasksListed(report: Report, records: seq<Record>, metadata: map<int, TaskMeta>, t: int)
    requires IsReport(report, records, metadata)
    ensures (exists i :: 0 <= i < |report.tasks| && report.tasks[i].taskId == t) <==>
      t in metadata && exists r :: r in records && r.taskId == Some(t)
  {
    hide Filter, IsTaskEntry, AreGroupEntries;
    var key := TaskKey(metadata);
    NonEmptyFilter(records, By(key, t));
    if i :| 0 <= i < |report.tasks| && report.tasks[i].taskId == t {
      NamedTask(report.tasks[i], records, metadata);
    }
    if r :| t in metadata && r in records && r.taskId == Some(t) {
      assert By(key, t)(r);
      assert Select(records, key, t) != [];
    }
  }

  lemma NamedTask(e: TaskEntry, records: seq<Record>, metadata: map<int, TaskMeta>)
    requires IsTaskEntry(e, records, metadata)
    ensures e.taskId in metadata && exists r :: r in records && r.taskId == Some(e.taskId)
  {
    hide Filter;
    NonEmptyFilter(records, By(TaskKey(metadata), e.taskId));
    var r :| r in records && By(TaskKey(metadata), e.taskId)(r);
  }

  /** Tasks are listed by falling cost, and by their ids where the costs are equal. */
  lemma TasksSorted(report: Report, records: seq<Record>, metadata: map<int, TaskMeta>, i: nat, j: nat)
    requires IsReport(report, records, metadata) && i < j < |report.tasks|
    ensures report.tasks[i].stats.cost >= report.tasks[j].stats.cost
    ensures report.tasks[i].stats.cost == report.tasks[j].stats.cost ==> report.tasks[i].taskId < report.tasks[j].taskId
  {
  }

  lemma EntryOf<K(!new)>(entries: map<K, GroupEntry>, records: seq<Record>, key: Key<K>, k: K, own: Record -> bool)
    requires AreGroupEntries(entries, records, key) && forall r :: own(r) <==> By(key, k)(r)
    ensures k in entries <==> exists r :: r in records && own(r)
    ensures k in entries ==> entries[k].stats == CalculateStats(Filter(records, own))
    ensures k in entries ==> forall t :: t in entries[k].taskIds <==> exists r :: r in records && own(r) && r.taskId == Some(t)
    ensures k in entries ==> entries[k].taskCount == |entries[k].taskIds|
    ensures k in entries ==> forall i, j :: 0 <= i < j < |entries[k].taskIds| ==> entries[k].taskIds[i] < entries[k].taskIds[j]
  {
    hide CalculateStats;
    FilterAgrees(records, By(key, k), own);
    NonEmptyFilter(records, own);
    Kept(records, own);
    hide Filter;
    if k in entries {
      assert IsGroupEntry(entries[k], Select(records, key, k));
      forall t
        ensures t in TaskIds(Filter(records, own)) <==> exists r :: r in records && own(r) && r.taskId == Some(t)
      {
      }
    }
  }

  /** An agent's entry is that of the agent's records of known tasks, a project's that of the records of its tasks. */
  lemma EntriesAreOfTheirRecords(report: Report, records: seq<Record>, metadata: map<int, TaskMeta>, agent: string, project: ProjectKey)
    requires IsReport(report, records, metadata)
    ensures agent in report.agents <==> exists r :: r in records && OfAgent(metadata, agent)(r)
    ensures agent in report.agents ==>
      var e := report.agents[agent];
      && e.stats == CalculateStats(Filter(records, OfAgent(metadata, agent)))
      && (forall t :: t in e.taskIds <==> exists r :: r in records && OfAgent(metadata, agent)(r) && r.taskId == Some(t))
    ensures project in report.projects <==> exists r :: r in records && OfProject(metadata, project)(r)
    ensures project in report.projects ==>
      var e := report.projects[project];
      && e.stats == CalculateStats(Filter(records, OfProject(metadata, project)))
      && (forall t :: t in e.taskIds <==> exists r :: r in records && OfProject(metadata, project)(r) && r.taskId == Some(t))
  {
    hide AreTasks, AreGroupEntries, CalculateStats, Filter;
    EntryOf(report.agents, records, AgentKey(metadata), agent, OfAgent(metadata, agent));
    EntryOf(report.projects, records, TaskProjectKey(metadata), project, OfProject(metadata, project));
  }

  /** The summary is that of the records of known tasks, the unattributed statistics those of records without a task. */
  lemma SummaryIsOfKnownRecords(report: Report, records: seq<Record>, metadata: map<int, TaskMeta>)
    requires IsReport(report, records, metadata)
    ensures report.summary == CalculateStats(Filter(records, (r: Record) => Known(metadata, r)))
    ensures report.unattributed == CalculateStats(Filter(records, (r: Record) => r.taskId == None))
  {
    hide AreTasks, AreGroupEntries, CalculateStats, Filter;
    FilterAgrees(records, Keyed(TaskKey(metadata)), (r: Record) => Known(metadata, r));
    FilterAgrees(records, Unattributed(), (r: Record) => r.taskId == None);
  }
}
