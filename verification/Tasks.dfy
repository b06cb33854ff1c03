// Tasks and their declared dependencies.
module Tasks {
  import opened Relations

  type Id = string

  datatype Dependency = Dependency(id: Id, canFail: bool, canSkip: bool)

  datatype Task = Task(id: Id, dependsOn: seq<Dependency>)

  function IdSet(tasks: seq<Task>): set<Id> {
    set t | t in tasks :: t.id
  }

  ghost predicate UniqueIds(tasks: seq<Task>) {
    forall i, j :: 0 <= i < j < |tasks| ==> tasks[i].id != tasks[j].id
  }

  /** The next filter of `_get_task_by_id`: the first task carrying the id. */
  function TaskById(tasks: seq<Task>, id: Id): (t: Task)
    requires id in IdSet(tasks)
    ensures t in tasks && t.id == id
  {
    if tasks[0].id == id then tasks[0] else TaskById(tasks[1..], id)
  }

  lemma {:induction false} TaskByIdUnique(tasks: seq<Task>, t: Task)
    requires UniqueIds(tasks) && t in tasks
    ensures TaskById(tasks, t.id) == t
  {
    var u := TaskById(tasks, t.id);
    var i :| 0 <= i < |tasks| && tasks[i] == t;
    var j :| 0 <= j < |tasks| && tasks[j] == u;
    assert i == j;
  }

  /** The pairs (child, parent) declared by `depends_on` entries. */
  ghost function Edges(tasks: seq<Task>): set<(Id, Id)> {
    set t, d | t in tasks && d in t.dependsOn :: (t.id, d.id)
  }

  /** The declared pairs (child, parent) in which the child cannot skip the parent's being skipped. */
  ghost function BindingEdges(tasks: seq<Task>): set<(Id, Id)> {
    set t, d | t in tasks && d in t.dependsOn && !d.canSkip :: (t.id, d.id)
  }

  /** What `_set_tasks` demands before it builds anything: every entry names an
      existing task other than the one that declares it. */
  ghost predicate DependenciesExist(tasks: seq<Task>) {
    forall t, d :: t in tasks && d in t.dependsOn ==> d.id != t.id && d.id in IdSet(tasks)
  }
}
