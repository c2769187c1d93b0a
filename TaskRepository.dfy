/** The task table and the queries the task repository declares on it. */
module TaskRepository {
  import opened Entities

  /** Every row is stored under its own id. */
  predicate WellKeyed(tasks: map<TaskId, Task>)
  {
    forall id :: id in tasks ==> tasks[id].id == id
  }

  /** Every stored id is positive, as an identity column starting at 1 gives. */
  predicate PositiveIds(tasks: map<TaskId, Task>)
  {
    forall id :: id in tasks ==> id >= 1
  }

  /** The task table; ids come from an identity column starting at 1. */
  class TaskStore {
    var tasks: map<TaskId, Task>
    var nextId: TaskId

    ghost predicate Valid()
      reads this
    {
      && WellKeyed(tasks)
      && PositiveIds(tasks)
      && nextId >= 1
      && (forall id :: id in tasks ==> id < nextId)
    }

    constructor ()
      ensures Valid() && tasks == map[]
    {
      tasks := map[];
      nextId := 1;
    }
  }

  /** `findAll`: every row. */
  function FindAll(tasks: map<TaskId, Task>): set<Task>
  {
    set id | id in tasks :: tasks[id]
  }

  /** The ids of the rows whose owner is the given user. */
  function OwnedIds(tasks: map<TaskId, Task>, userId: UserId): set<TaskId>
  {
    set id | id in tasks && tasks[id].ownerId == userId
  }

  /** `findByUserId`: the rows owned by the given user. */
  function FindByUserId(tasks: map<TaskId, Task>, userId: UserId): (r: set<Task>)
    ensures forall t :: t in r <==> t in tasks.Values && t.ownerId == userId
  {
    set id | id in OwnedIds(tasks, userId) :: tasks[id]
  }

  /** `findByUser`: the association is matched on the user's id. */
  function FindByUser(tasks: map<TaskId, Task>, user: User): (r: set<Task>)
    ensures forall t :: t in r <==> t in tasks.Values && t.ownerId == user.id
  {
    FindByUserId(tasks, user.id)
  }

  /** `findByUserIdAndStatus`: the rows with the given owner and status. */
  function FindByUserIdAndStatus(tasks: map<TaskId, Task>, userId: UserId, status: TaskStatus): (r: set<Task>)
    ensures forall t :: t in r <==> t in tasks.Values && t.ownerId == userId && t.status == status
  {
    set id | id in tasks && tasks[id].ownerId == userId && tasks[id].status == status :: tasks[id]
  }

  /** `findByUserIdAndPriority`: the rows with the given owner and priority. */
  function FindByUserIdAndPriority(tasks: map<TaskId, Task>, userId: UserId, priority: TaskPriority): (r: set<Task>)
    ensures forall t :: t in r <==> t in tasks.Values && t.ownerId == userId && t.priority == priority
  {
    set id | id in tasks && tasks[id].ownerId == userId && tasks[id].priority == priority :: tasks[id]
  }

  /** `findByIdAndUserId`: the row with that id, if the given user owns it. */
  function FindByIdAndUserId(tasks: map<TaskId, Task>, id: TaskId, userId: UserId): (r: Option<Task>)
    requires WellKeyed(tasks)
    ensures r.Some? <==> exists t :: t in FindByUserId(tasks, userId) && t.id == id
    ensures r.Some? ==> r.value in FindByUserId(tasks, userId) && r.value.id == id
  {
    if id in tasks && tasks[id].ownerId == userId then Some(tasks[id]) else None
  }

  /** `countByUserId`: the number of rows owned by the given user. */
  function CountByUserId(tasks: map<TaskId, Task>, userId: UserId): nat
  {
    |OwnedIds(tasks, userId)|
  }

  /** Distinct ids select distinct rows, so a set of ids and its rows have the same size. */
  lemma {:induction false} RowCount(tasks: map<TaskId, Task>, ids: set<TaskId>)
    requires WellKeyed(tasks) && ids <= tasks.Keys
    ensures |set id | id in ids :: tasks[id]| == |ids|
  {
    if ids != {} {
      var x :| x in ids;
      var rest := ids - {x};
      RowCount(tasks, rest);
      var rows := set id | id in ids :: tasks[id];
      var restRows := set id | id in rest :: tasks[id];
      assert rows == restRows + {tasks[x]};
      assert tasks[x] !in restRows;
    }
  }

  /** `countByUserId` agrees with the size of `findByUserId`. */
  lemma CountMatchesFind(tasks: map<TaskId, Task>, userId: UserId)
    requires WellKeyed(tasks)
    ensures CountByUserId(tasks, userId) == |FindByUserId(tasks, userId)|
  {
    RowCount(tasks, OwnedIds(tasks, userId));
  }

  /** `findAll` returns one row per stored id. */
  lemma FindAllSize(tasks: map<TaskId, Task>)
    requires WellKeyed(tasks)
    ensures |FindAll(tasks)| == |tasks|
    ensures forall t :: t in FindAll(tasks) <==> t in tasks.Values
  {
    RowCount(tasks, tasks.Keys);
    assert FindAll(tasks) == set id | id in tasks.Keys :: tasks[id];
  }

  /** The status queries split a user's rows: each row is in exactly one of them. */
  lemma StatusQueriesPartition(tasks: map<TaskId, Task>, userId: UserId)
    ensures FindByUserId(tasks, userId)
            == FindByUserIdAndStatus(tasks, userId, Pending)
             + FindByUserIdAndStatus(tasks, userId, InProgress)
             + FindByUserIdAndStatus(tasks, userId, Completed)
    ensures forall s1, s2 :: s1 != s2 ==>
              FindByUserIdAndStatus(tasks, userId, s1) !! FindByUserIdAndStatus(tasks, userId, s2)
  {
  }

  /** The priority queries split a user's rows: each row is in exactly one of them. */
  lemma PriorityQueriesPartition(tasks: map<TaskId, Task>, userId: UserId)
    ensures FindByUserId(tasks, userId)
            == FindByUserIdAndPriority(tasks, userId, Low)
             + FindByUserIdAndPriority(tasks, userId, Medium)
             + FindByUserIdAndPriority(tasks, userId, High)
    ensures forall p1, p2 :: p1 != p2 ==>
              FindByUserIdAndPriority(tasks, userId, p1) !! FindByUserIdAndPriority(tasks, userId, p2)
  {
  }
}
