/** The upsert loop `syncTasks` of src/lib/conductor-sync.ts, from Conductor's task list into the task table. */
module ConductorSync {
  import opened Wrappers

  /** A task of Conductor; `details` stands for the fields that are only copied into the metadata. */
  datatype ConductorTask = ConductorTask(
    id: string, status: string, modelTier: int, company: string, executor: string, tmuxSession: string,
    ciStatus: string, title: string, prompt: string, startedAt: int, updatedAt: int, details: string)

  /** The JSON text of the metadata column, by the values that go into it. */
  datatype Metadata = Metadata(conductorId: string, conductorStatus: string, modelTier: int, tmuxSession: string, ciStatus: string, details: string)

  /** A row of the task table; rows that Conductor did not create have no metadata. */
  datatype Row = Row(
    title: string, description: string, status: string, priority: string, assignedTo: string,
    createdAt: int, updatedAt: int, tags: seq<string>, metadata: Option<Metadata>, projectId: Option<nat>,
    outcome: Option<string>, completedAt: Option<int>)

  function MapStatus(status: string): string {
    match status
    case "queued" => "inbox"
    case "running" => "in_progress"
    case "pr_open" => "review"
    case "reviewing" => "review"
    case "ready" => "quality_review"
    case "merged" => "done"
    case "failed" => "in_progress"
    case "cancelled" => "done"
    case _ => "inbox"
  }

  function MapPriority(t: ConductorTask): string {
    if t.status == "failed" then "urgent"
    else if t.modelTier == 1 then "urgent"
    else if t.modelTier == 2 then "high"
    else if t.modelTier == 3 then "medium"
    else if t.modelTier == 4 then "low"
    else "medium"
  }

  function Tags(t: ConductorTask): seq<string> {
    [t.company, t.executor]
    + (if t.ciStatus != "" then ["ci:" + t.ciStatus] else [])
    + (if t.status == "failed" then ["failed"] else [])
  }

  function MetadataOf(t: ConductorTask): Metadata {
    Metadata(t.id, t.status, t.modelTier, t.tmuxSession, t.ciStatus, t.details)
  }

  predicate Closed(t: ConductorTask) {
    t.status == "merged" || t.status == "cancelled"
  }

  function Outcome(t: ConductorTask): Option<string> {
    if t.status == "merged" then Some("success") else if t.status == "cancelled" then Some("abandoned") else None
  }

  /** Milliseconds to seconds, rounded down. */
  function Seconds(ms: int): int {
    ms / 1000
  }

  function Inserted(t: ConductorTask, projectId: Option<nat>): Row {
    Row(t.title, t.prompt, MapStatus(t.status), MapPriority(t), t.tmuxSession, Seconds(t.startedAt), Seconds(t.updatedAt),
        Tags(t), Some(MetadataOf(t)), projectId, None, None)
  }

  function Updated(row: Row, t: ConductorTask): Row {
    row.(status := MapStatus(t.status), priority := MapPriority(t), assignedTo := t.tmuxSession,
         updatedAt := Seconds(t.updatedAt), tags := Tags(t), metadata := Some(MetadataOf(t)),
         outcome := Outcome(t), completedAt := if Closed(t) then Some(Seconds(t.updatedAt)) else None)
  }

  predicate HasId(row: Row, id: string) {
    row.metadata.Some? && row.metadata.value.conductorId == id
  }

  /** The position of the first row with the id, or the length of the table. A row's id is its position. */
  function Find(rows: seq<Row>, id: string): (k: nat)
    ensures k <= |rows|
    ensures k < |rows| ==> HasId(rows[k], id)
    ensures forall i :: 0 <= i < k ==> !HasId(rows[i], id)
  {
    if rows == [] || HasId(rows[0], id) then 0 else 1 + Find(rows[1..], id)
  }

  predicate Present(rows: seq<Row>, id: string) {
    Find(rows, id) < |rows|
  }

  datatype Stats = Stats(created: nat, updated: nat, statusChanges: nat)

  /** `projects` maps companies to projects. */
  function SyncOne(rows: seq<Row>, t: ConductorTask, projects: map<string, nat>): seq<Row> {
    var k := Find(rows, t.id);
    if k < |rows| then rows[k := Updated(rows[k], t)]
    else rows + [Inserted(t, if t.company in projects then Some(projects[t.company]) else None)]
  }

  function SyncAll(rows: seq<Row>, tasks: seq<ConductorTask>, projects: map<string, nat>): seq<Row> {
    if tasks == [] then rows
    else SyncOne(SyncAll(rows, tasks[..|tasks| - 1], projects), tasks[|tasks| - 1], projects)
  }

  function StatsOf(rows: seq<Row>, tasks: seq<ConductorTask>, projects: map<string, nat>): Stats {
    if tasks == [] then Stats(0, 0, 0)
    else
      var before, t := tasks[..|tasks| - 1], tasks[|tasks| - 1];
      var stats, table := StatsOf(rows, before, projects), SyncAll(rows, before, projects);
      var k := Find(table, t.id);
      if k == |table| then stats.(created := stats.created + 1)
      else stats.(updated := stats.updated + 1,
                  statusChanges := stats.statusChanges + if table[k].status != MapStatus(t.status) then 1 else 0)
  }

  class TaskTable {
    var rows: seq<Row>

    method FindTask(id: string) returns (k: nat)
      ensures k == Find(rows, id)
    {
      k := 0;
      while k < |rows| && !HasId(rows[k], id)
        invariant k <= |rows| && forall i :: 0 <= i < k ==> !HasId(rows[i], id)
      {
        k := k + 1;
      }
    }

    method SyncTasks(tasks: seq<ConductorTask>, projects: map<string, nat>) returns (stats: Stats)
      modifies this
      ensures rows == SyncAll(old(rows), tasks, projects)
      ensures stats == StatsOf(old(rows), tasks, projects)
    {
      hide Updated, Inserted, MapStatus, Find;
      stats := Stats(0, 0, 0);
      for i := 0 to |tasks|
        invariant rows == SyncAll(old(rows), tasks[..i], projects)
        invariant stats == StatsOf(old(rows), tasks[..i], projects)
      {
        var t := tasks[i];
        assert tasks[..i + 1][..i] == tasks[..i];
        var k := FindTask(t.id);
        if k < |rows| {
          var statusChanged := rows[k].status != MapStatus(t.status);
          rows := rows[k := Updated(rows[k], t)];
          stats := stats.(updated := stats.updated + 1);
          if statusChanged {
            stats := stats.(statusChanges := stats.statusChanges + 1);
          }
        } else {
          rows := rows + [Inserted(t, if t.company in projects then Some(projects[t.company]) else None)];
          stats := stats.(created := stats.created + 1);
        }
      }
      assert tasks[..|tasks|] == tasks;
    }
  }

  // ---------------------------------------------------------------------------
  // One task at a time

  predicate Distinct(tasks: seq<ConductorTask>) {
    forall i, j :: 0 <= i < j < |tasks| ==> tasks[i].id != tasks[j].id
  }

  /** Synchronizing one task leaves every other id where it is, with the same row. */
  lemma SyncOneFrame(rows: seq<Row>, t: ConductorTask, projects: map<string, nat>, id: string)
    requires id != t.id
    ensures var rows' := SyncOne(rows, t, projects);
      && (Present(rows', id) <==> Present(rows, id))
      && (Present(rows, id) ==> Find(rows', id) == Find(rows, id) && rows'[Find(rows, id)] == rows[Find(rows, id)])
  {
    var rows', k := SyncOne(rows, t, projects), Find(rows, t.id);
    assert forall i :: 0 <= i < |rows| ==> (HasId(rows'[i], id) <==> HasId(rows[i], id));
    assert |rows'| > |rows| ==> !HasId(rows'[|rows|], id);
  }

  lemma SyncOneHere(rows: seq<Row>, t: ConductorTask, projects: map<string, nat>)
    ensures var rows', k := SyncOne(rows, t, projects), Find(rows, t.id);
      && Find(rows', t.id) == k < |rows'|
      && rows'[k] == if k < |rows| then Updated(rows[k], t)
                     else Inserted(t, if t.company in projects then Some(projects[t.company]) else None)
  {
    var rows', k := SyncOne(rows, t, projects), Find(rows, t.id);
    assert forall i :: 0 <= i < k ==> rows'[i] == rows[i];
    assert HasId(rows'[k], t.id);
  }

  // ---------------------------------------------------------------------------
  // A whole run

  /** A row whose id is not listed stays as it is. */
  lemma {:induction false} RunFrame(rows: seq<Row>, tasks: seq<ConductorTask>, projects: map<string, nat>, id: string)
    requires forall i :: 0 <= i < |tasks| ==> tasks[i].id != id
    ensures var rows' := SyncAll(rows, tasks, projects);
      && (Present(rows', id) <==> Present(rows, id))
      && (Present(rows, id) ==> Find(rows', id) == Find(rows, id) && rows'[Find(rows, id)] == rows[Find(rows, id)])
  {
    if tasks != [] {
      hide SyncOne, Find;
      var n := |tasks| - 1;
      RunFrame(rows, tasks[..n], projects, id);
      SyncOneFrame(SyncAll(rows, tasks[..n], projects), tasks[n], projects, id);
    }
  }

  /** After a run, every listed task has its row: the updated old one, or a new one. */
  lemma {:induction false} RunResult(rows: seq<Row>, tasks: seq<ConductorTask>, projects: map<string, nat>, i: nat)
    requires Distinct(tasks) && i < |tasks|
    ensures var rows', t := SyncAll(rows, tasks, projects), tasks[i];
      && Present(rows', t.id)
      && (Present(rows, t.id) ==> Find(rows', t.id) == Find(rows, t.id))
      && rows'[Find(rows', t.id)] == if Present(rows, t.id) then Updated(rows[Find(rows, t.id)], t)
                                     else Inserted(t, if t.company in projects then Some(projects[t.company]) else None)
  {
    var n := |tasks| - 1;
    var before, last := SyncAll(rows, tasks[..n], projects), tasks[n];
    if i == n {
      RunFrame(rows, tasks[..n], projects, last.id);
      SyncOneHere(before, last, projects);
    } else {
      RunResult(rows, tasks[..n], projects, i);
      SyncOneFrame(before, last, projects, tasks[i].id);
    }
  }

  /** Rows with the same id do not come into being. */
  predicate OneRowPerId(rows: seq<Row>) {
    forall i, j :: 0 <= i < j < |rows| && rows[i].metadata.Some? && rows[j].metadata.Some? ==>
      rows[i].metadata.value.conductorId != rows[j].metadata.value.conductorId
  }

  lemma {:induction false} RunKeepsOneRowPerId(rows: seq<Row>, tasks: seq<ConductorTask>, projects: map<string, nat>)
    requires OneRowPerId(rows)
    ensures OneRowPerId(SyncAll(rows, tasks, projects))
  {
    if tasks != [] {
      RunKeepsOneRowPerId(rows, tasks[..|tasks| - 1], projects);
    }
  }

  /** The positions of the listed tasks that the table does not have. */
  function Missing(rows: seq<Row>, tasks: seq<ConductorTask>): set<nat> {
    set i: nat | i < |tasks| && !Present(rows, tasks[i].id)
  }

  /** Every run counts each listed task once, and the table grows by the created rows. */
  lemma {:induction false} RunCounts(rows: seq<Row>, tasks: seq<ConductorTask>, projects: map<string, nat>)
    ensures StatsOf(rows, tasks, projects).created + StatsOf(rows, tasks, projects).updated == |tasks|
    ensures |SyncAll(rows, tasks, projects)| == |rows| + StatsOf(rows, tasks, projects).created
  {
    hide Updated, Inserted, MapStatus;
    if tasks != [] {
      RunCounts(rows, tasks[..|tasks| - 1], projects);
    }
  }

  lemma CountedNext(rows: seq<Row>, tasks: seq<ConductorTask>, projects: map<string, nat>)
    requires tasks != []
    ensures var n := |tasks| - 1;
      StatsOf(rows, tasks, projects).created ==
        StatsOf(rows, tasks[..n], projects).created + if Present(SyncAll(rows, tasks[..n], projects), tasks[n].id) then 0 else 1
  {
    hide SyncAll, SyncOne, MapStatus, Find;
  }

  lemma MissingNext(rows: seq<Row>, tasks: seq<ConductorTask>)
    requires tasks != []
    ensures var n := |tasks| - 1;
      |Missing(rows, tasks)| == |Missing(rows, tasks[..n])| + if Present(rows, tasks[n].id) then 0 else 1
  {
    hide Present;
    var n := |tasks| - 1;
    assert n !in Missing(rows, tasks[..n]);
    assert Missing(rows, tasks) == Missing(rows, tasks[..n]) + if Present(rows, tasks[n].id) then {} else {n};
  }

  /** For distinct ids the created rows are exactly the missing tasks. */
  lemma {:induction false} RunCreatesTheMissing(rows: seq<Row>, tasks: seq<ConductorTask>, projects: map<string, nat>)
    requires Distinct(tasks)
    ensures StatsOf(rows, tasks, projects).created == |Missing(rows, tasks)|
  {
    if tasks == [] {
      assert Missing(rows, tasks) == {};
    } else {
      hide StatsOf, SyncAll, Present, Missing;
      var n := |tasks| - 1;
      RunCreatesTheMissing(rows, tasks[..n], projects);
      RunFrame(rows, tasks[..n], projects, tasks[n].id);
      CountedNext(rows, tasks, projects);
      MissingNext(rows, tasks);
    }
  }

  // ---------------------------------------------------------------------------
  // Repeated runs

  predicate Settled(rows: seq<Row>, t: ConductorTask) {
    Present(rows, t.id) && Updated(rows[Find(rows, t.id)], t) == rows[Find(rows, t.id)]
  }

  lemma {:induction false} SettledRunChangesNothing(rows: seq<Row>, tasks: seq<ConductorTask>, projects: map<string, nat>)
    requires forall i :: 0 <= i < |tasks| ==> Settled(rows, tasks[i])
    ensures SyncAll(rows, tasks, projects) == rows
  {
    hide Updated, Inserted, Find;
    if tasks != [] {
      var n := |tasks| - 1;
      SettledRunChangesNothing(rows, tasks[..n], projects);
      assert Settled(rows, tasks[n]);
    }
  }

  /**
    A second identical run changes no row exactly when the first one inserted no merged or cancelled task: the
    insertion leaves their outcome and completion time for the next run.
    */
  lemma SecondRunChangesNothing(rows: seq<Row>, tasks: seq<ConductorTask>, projects: map<string, nat>)
    requires Distinct(tasks)
    ensures var once := SyncAll(rows, tasks, projects);
      SyncAll(once, tasks, projects) == once <==> forall i <- Missing(rows, tasks) :: !Closed(tasks[i])
  {
    var once := SyncAll(rows, tasks, projects);
    var twice := SyncAll(once, tasks, projects);
    forall i: nat | i < |tasks|
      ensures Settled(once, tasks[i]) <==> Present(rows, tasks[i].id) || !Closed(tasks[i])
      ensures twice == once ==> Settled(once, tasks[i])
    {
      RunResult(rows, tasks, projects, i);
      RunResult(once, tasks, projects, i);
    }
    if forall i <- Missing(rows, tasks) :: !Closed(tasks[i]) {
      assert forall i: nat :: i < |tasks| && !Present(rows, tasks[i].id) ==> i in Missing(rows, tasks);
      SettledRunChangesNothing(once, tasks, projects);
    }
  }

  /** From the third identical run on, no row changes. */
  lemma ThirdRunChangesNothing(rows: seq<Row>, tasks: seq<ConductorTask>, projects: map<string, nat>)
    requires Distinct(tasks)
    ensures var twice := SyncAll(SyncAll(rows, tasks, projects), tasks, projects);
      SyncAll(twice, tasks, projects) == twice
  {
    var once := SyncAll(rows, tasks, projects);
    var twice := SyncAll(once, tasks, projects);
    forall i: nat | i < |tasks|
      ensures Settled(twice, tasks[i])
    {
      RunResult(rows, tasks, projects, i);
      RunResult(once, tasks, projects, i);
    }
    SettledRunChangesNothing(twice, tasks, projects);
  }

  /** What a table row says about a task of Conductor. */
  predicate Tells(row: Row, t: ConductorTask) {
    && (row.status == "done" <==> t.status in ["merged", "cancelled"])
    && (row.status == "review" <==> t.status in ["pr_open", "reviewing"])
    && (row.status == "quality_review" <==> t.status == "ready")
    && (row.status == "in_progress" <==> t.status in ["running", "failed"])
    && (row.status == "inbox" <==> t.status !in ["merged", "cancelled", "pr_open", "reviewing", "ready", "running", "failed"])
    && (row.priority == "urgent" <==> t.status == "failed" || t.modelTier == 1)
    && (row.priority == "high" <==> t.status != "failed" && t.modelTier == 2)
    && (row.priority == "low" <==> t.status != "failed" && t.modelTier == 4)
    && (row.priority == "medium" <==> t.status != "failed" && t.modelTier !in [1, 2, 4])
    && row.assignedTo == t.tmuxSession
    && row.updatedAt * 1000 <= t.updatedAt < row.updatedAt * 1000 + 1000
    && 2 <= |row.tags| && row.tags[0] == t.company && row.tags[1] == t.executor
    && (row.tags[2..] == (if t.ciStatus == "" then [] else ["ci:" + t.ciStatus]) + if t.status == "failed" then ["failed"] else [])
    && row.metadata == Some(Metadata(t.id, t.status, t.modelTier, t.tmuxSession, t.ciStatus, t.details))
  }

  /** The outcome and the completion time that a closed task should have. */
  predicate TellsOutcome(row: Row, t: ConductorTask) {
    && (row.outcome == Some("success") <==> t.status == "merged")
    && (row.outcome == Some("abandoned") <==> t.status == "cancelled")
    && (row.outcome == None <==> row.status != "done")
    && (row.completedAt == if row.status == "done" then Some(row.updatedAt) else None)
  }

  lemma UpdatedRow(before: Row, t: ConductorTask)
    ensures var row := Updated(before, t);
      && Tells(row, t) && TellsOutcome(row, t)
      && row.title == before.title && row.description == before.description && row.createdAt == before.createdAt
      && row.projectId == before.projectId
  {
    assert Tags(t)[2..] == (if t.ciStatus == "" then [] else ["ci:" + t.ciStatus]) + if t.status == "failed" then ["failed"] else [];
  }

  lemma InsertedRow(t: ConductorTask, projectId: Option<nat>)
    ensures var row := Inserted(t, projectId);
      && Tells(row, t) && row.outcome == None && row.completedAt == None
      && row.title == t.title && row.description == t.prompt && row.projectId == projectId
      && row.createdAt * 1000 <= t.startedAt < row.createdAt * 1000 + 1000
  {
    assert Tags(t)[2..] == (if t.ciStatus == "" then [] else ["ci:" + t.ciStatus]) + if t.status == "failed" then ["failed"] else [];
  }

  /**
    After one run every listed task has a row that tells its status, priority, session, tags, time and metadata; a new
    row has the project of its company and no outcome, an old one its outcome too.
    */
  lemma RunTellsTasks(rows: seq<Row>, tasks: seq<ConductorTask>, projects: map<string, nat>, i: nat)
    requires Distinct(tasks) && i < |tasks|
    ensures var once, t := SyncAll(rows, tasks, projects), tasks[i];
      && Present(once, t.id)
      && var row := once[Find(once, t.id)];
         && Tells(row, t)
         && (if Present(rows, t.id) then TellsOutcome(row, t) && row.projectId == rows[Find(rows, t.id)].projectId
             else
               && row.outcome == None && row.completedAt == None
               && row.projectId == if t.company in projects then Some(projects[t.company]) else None)
  {
    hide SyncAll, Find, Inserted, Updated, Tells, TellsOutcome;
    var t := tasks[i];
    RunResult(rows, tasks, projects, i);
    if Present(rows, t.id) {
      UpdatedRow(rows[Find(rows, t.id)], t);
    } else {
      InsertedRow(t, if t.company in projects then Some(projects[t.company]) else None);
    }
  }

  /** After two runs every listed task's row also tells its outcome and completion time. */
  lemma SecondRunCompletesOutcomes(rows: seq<Row>, tasks: seq<ConductorTask>, projects: map<string, nat>, i: nat)
    requires Distinct(tasks) && i < |tasks|
    ensures var twice, t := SyncAll(SyncAll(rows, tasks, projects), tasks, projects), tasks[i];
      Present(twice, t.id) && Tells(twice[Find(twice, t.id)], t) && TellsOutcome(twice[Find(twice, t.id)], t)
  {
    hide SyncAll, Find, Inserted, Updated, Tells, TellsOutcome;
    var once, t := SyncAll(rows, tasks, projects), tasks[i];
    RunResult(rows, tasks, projects, i);
    RunResult(once, tasks, projects, i);
    UpdatedRow(once[Find(once, t.id)], t);
  }

  predicate InStep(rows: seq<Row>, t: ConductorTask) {
    Present(rows, t.id) && rows[Find(rows, t.id)].status == MapStatus(t.status)
  }

  lemma {:induction false} InStepRun(rows: seq<Row>, tasks: seq<ConductorTask>, projects: map<string, nat>)
    requires Distinct(tasks) && forall i :: 0 <= i < |tasks| ==> InStep(rows, tasks[i])
    ensures StatsOf(rows, tasks, projects) == Stats(0, |tasks|, 0)
  {
    if tasks != [] {
      var n := |tasks| - 1;
      InStepRun(rows, tasks[..n], projects);
      RunFrame(rows, tasks[..n], projects, tasks[n].id);
      assert InStep(rows, tasks[n]);
    }
  }

  /** The second identical run creates nothing and reports no status change. */
  lemma SecondRunReportsNothing(rows: seq<Row>, tasks: seq<ConductorTask>, projects: map<string, nat>)
    requires Distinct(tasks)
    ensures StatsOf(SyncAll(rows, tasks, projects), tasks, projects) == Stats(0, |tasks|, 0)
  {
    var once := SyncAll(rows, tasks, projects);
    forall i: nat | i < |tasks|
      ensures InStep(once, tasks[i])
    {
      RunResult(rows, tasks, projects, i);
    }
    InStepRun(once, tasks, projects);
  }
}
