/**
 * The in-memory task store of the task service: one object owning a by-id
 * map and an insertion-ordered sequence of the same tasks, plus a one-shot
 * switch that makes the next CreateTask fail with Unavailable.
 *
 * The model is sequential. The service guards both views with one
 * reader/writer lock; two reads in it happen outside that lock (the test of
 * the failure switch at the start of CreateTask, and the length of the
 * sequence in ListTasks' past-the-end check). Here every call runs alone,
 * so neither can observe a concurrent write.
 */
module TaskStore {
  import opened Codes
  import opened Text
  import opened Pagination

  /** The status a task can carry; this core only ever sets Pending. */
  datatype TaskStatus = Unspecified | Pending

  /** A point in time, left abstract: the caller supplies "now". */
  datatype Timestamp = Timestamp(seconds: int, nanos: int)

  datatype Task = Task(
    taskId: string,
    title: string,
    description: string,
    status: TaskStatus,
    createdAt: Timestamp,
    updatedAt: Timestamp)

  predicate IsHexDigit(c: char) {
    ('0' <= c <= '9') || ('a' <= c <= 'f')
  }

  /** The canonical text form of a uuid: 8-4-4-4-12 lower-case hexadecimal digits. */
  predicate IsUuid(s: string) {
    && |s| == 36
    && (forall i :: 0 <= i < 36 && (i == 8 || i == 13 || i == 18 || i == 23) ==> s[i] == '-')
    && (forall i :: 0 <= i < 36 && i != 8 && i != 13 && i != 18 && i != 23 ==> IsHexDigit(s[i]))
  }

  /** A uuid has no white space to trim, so the id a task gets is the one GetTask must be given. */
  lemma UuidIsTrimmed(s: string)
    requires IsUuid(s)
    ensures s != [] && IsTrimmed(s) && TrimSpace(s) == s
  {
    HexIsNotSpace(s[0]);
    HexIsNotSpace(s[35]);
    assert IsTrimmed(s);
    TrimSpaceFixed(s);
  }

  lemma HexIsNotSpace(c: char)
    requires IsHexDigit(c)
    ensures !IsSpace(c)
  {
  }

  /** The shape every stored task has: trimmed, non-empty id and title, trimmed description, Pending, never updated. */
  predicate WellFormed(t: Task) {
    && t.taskId != "" && IsTrimmed(t.taskId)
    && t.title != "" && IsTrimmed(t.title)
    && IsTrimmed(t.description)
    && t.status == Pending
    && t.createdAt == t.updatedAt
  }

  /** The ids of a sequence of tasks. */
  function Ids(s: seq<Task>): set<string> {
    set i | 0 <= i < |s| :: s[i].taskId
  }

  /** No two positions of `s` hold tasks with the same id. */
  predicate DistinctIds(s: seq<Task>) {
    forall i, j :: 0 <= i < j < |s| ==> s[i].taskId != s[j].taskId
  }

  /** Appending a task adds exactly its id. */
  lemma IdsAppend(s: seq<Task>, t: Task)
    ensures Ids(s + [t]) == Ids(s) + {t.taskId}
  {
    var s' := s + [t];
    forall id | id in Ids(s') ensures id in Ids(s) + {t.taskId} {
      var i :| 0 <= i < |s'| && s'[i].taskId == id;
      if i < |s| { assert s[i] == s'[i]; }
    }
    forall id | id in Ids(s) ensures id in Ids(s') {
      var i :| 0 <= i < |s| && s[i].taskId == id;
      assert s'[i] == s[i];
    }
    assert s'[|s|] == t;
  }

  /**
   * The two views hold the same tasks: every task of the sequence is in the
   * map under its own id, the map has no other keys, ids are distinct, and
   * every task has the shape a create gives it.
   */
  ghost predicate Consistent(m: map<string, Task>, s: seq<Task>) {
    && (forall i :: 0 <= i < |s| ==> s[i].taskId in m && m[s[i].taskId] == s[i])
    && m.Keys == Ids(s)
    && DistinctIds(s)
    && (forall i :: 0 <= i < |s| ==> WellFormed(s[i]))
  }

  /** Adding a well-formed task under a fresh id to both views keeps them consistent. */
  lemma ConsistentInsert(m: map<string, Task>, s: seq<Task>, t: Task)
    requires Consistent(m, s) && WellFormed(t) && t.taskId !in m
    ensures Consistent(m[t.taskId := t], s + [t])
  {
    IdsAppend(s, t);
    InsertKeepsLookup(m, s, t);
    InsertKeepsDistinct(m, s, t);
    InsertKeepsWellFormed(s, t);
  }

  lemma InsertKeepsLookup(m: map<string, Task>, s: seq<Task>, t: Task)
    requires Consistent(m, s) && t.taskId !in m
    ensures var m', s' := m[t.taskId := t], s + [t];
      forall i :: 0 <= i < |s'| ==> s'[i].taskId in m' && m'[s'[i].taskId] == s'[i]
  {
    var m', s' := m[t.taskId := t], s + [t];
    forall i | 0 <= i < |s'| ensures s'[i].taskId in m' && m'[s'[i].taskId] == s'[i] {
      if i < |s| {
        assert s'[i] == s[i] && s[i].taskId in m;
      }
    }
  }

  lemma InsertKeepsDistinct(m: map<string, Task>, s: seq<Task>, t: Task)
    requires Consistent(m, s) && t.taskId !in m
    ensures DistinctIds(s + [t])
  {
    var s' := s + [t];
    forall i, j | 0 <= i < j < |s'| ensures s'[i].taskId != s'[j].taskId {
      if j == |s| {
        assert s'[i] == s[i] && s[i].taskId in m;
      } else {
        assert s'[i] == s[i] && s'[j] == s[j];
      }
    }
  }

  lemma InsertKeepsWellFormed(s: seq<Task>, t: Task)
    requires forall i :: 0 <= i < |s| ==> WellFormed(s[i])
    requires WellFormed(t)
    ensures forall i :: 0 <= i < |s + [t]| ==> WellFormed((s + [t])[i])
  {
    forall i | 0 <= i < |s + [t]| ensures WellFormed((s + [t])[i]) {
      if i < |s| { assert (s + [t])[i] == s[i]; }
    }
  }

  /** The task a successful create builds. */
  function NewTask(taskId: string, title: string, description: string, now: Timestamp): (t: Task)
    requires TrimSpace(title) != ""
    requires taskId != "" && IsTrimmed(taskId)
    ensures WellFormed(t)
  {
    Task(taskId, TrimSpace(title), TrimSpace(description), Pending, now, now)
  }

  class TaskServiceServer {
    var taskMap: map<string, Task>
    var taskSlice: seq<Task>
    var failNext: bool

    /** The map and the sequence are two views of one collection of tasks. */
    ghost predicate Valid()
      reads this
    {
      Consistent(taskMap, taskSlice)
    }

    /** NewTaskServiceServer: an empty store with the switch off. */
    constructor ()
      ensures Valid()
      ensures taskMap == map[] && taskSlice == [] && !failNext
    {
      taskMap := map[];
      taskSlice := [];
      failNext := false;
    }

    /** Arms the one-shot failure switch. */
    method FailNextUnavailable()
      requires Valid()
      modifies this`failNext
      ensures Valid()
      ensures failNext
    {
      failNext := true;
    }

    /** Records a new task at the end of the sequence and under its id in the map. */
    method Insert(task: Task)
      requires Valid()
      requires WellFormed(task) && task.taskId !in taskMap
      modifies this`taskMap, this`taskSlice
      ensures Valid()
      ensures taskMap == old(taskMap)[task.taskId := task]
      ensures taskSlice == old(taskSlice) + [task]
    {
      ConsistentInsert(taskMap, taskSlice, task);
      taskMap := taskMap[task.taskId := task];
      taskSlice := taskSlice + [task];
    }

    /**
     * CreateTask. `uuid` is what the id generator returned: a canonical uuid
     * not yet in use. An armed switch wins over every other check: the call
     * fails with Unavailable, disarms the switch and stores nothing.
     */
    method CreateTask(title: string, description: string, uuid: string, now: Timestamp)
      returns (r: Result<Task>)
      requires Valid()
      requires IsUuid(uuid) && uuid !in taskMap
      modifies this
      ensures Valid()
      ensures !failNext
      ensures old(failNext) ==> r == Err(Unavailable)
      ensures !old(failNext) && TrimSpace(title) == "" ==> r == Err(InvalidArgument)
      ensures !old(failNext) && TrimSpace(title) != "" ==>
        r == Ok(Task(uuid, TrimSpace(title), TrimSpace(description), Pending, now, now))
      ensures r.Err? ==> taskMap == old(taskMap) && taskSlice == old(taskSlice)
      ensures r.Ok? ==> taskMap == old(taskMap)[uuid := r.value] && taskSlice == old(taskSlice) + [r.value]
    {
      if failNext {
        failNext := false;
        return Err(Unavailable);
      }
      var trimmedTitle := TrimSpace(title);
      if trimmedTitle == "" {
        return Err(InvalidArgument);
      }
      UuidIsTrimmed(uuid);
      var task := NewTask(uuid, title, description, now);
      Insert(task);
      r := Ok(task);
    }

    /** GetTask: a read of the map under the trimmed id. */
    method GetTask(taskId: string) returns (r: Result<Task>)
      ensures TrimSpace(taskId) == "" ==> r == Err(InvalidArgument)
      ensures TrimSpace(taskId) != "" && TrimSpace(taskId) !in taskMap ==> r == Err(NotFound)
      ensures TrimSpace(taskId) != "" && TrimSpace(taskId) in taskMap ==> r == Ok(taskMap[TrimSpace(taskId)])
    {
      var id := TrimSpace(taskId);
      if id == "" {
        return Err(InvalidArgument);
      }
      if id !in taskMap {
        return Err(NotFound);
      }
      r := Ok(taskMap[id]);
    }

    /**
     * CreateTaskWithId: the id is checked before the title, and a taken id
     * fails with AlreadyExists. The failure switch is neither read nor changed.
     */
    method CreateTaskWithId(taskId: string, title: string, description: string, now: Timestamp)
      returns (r: Result<Task>)
      requires Valid()
      modifies this`taskMap, this`taskSlice
      ensures Valid()
      ensures TrimSpace(taskId) == "" ==> r == Err(InvalidArgument)
      ensures TrimSpace(taskId) != "" && TrimSpace(title) == "" ==> r == Err(InvalidArgument)
      ensures TrimSpace(taskId) != "" && TrimSpace(title) != "" && TrimSpace(taskId) in old(taskMap) ==>
        r == Err(AlreadyExists)
      ensures TrimSpace(taskId) != "" && TrimSpace(title) != "" && TrimSpace(taskId) !in old(taskMap) ==>
        r == Ok(Task(TrimSpace(taskId), TrimSpace(title), TrimSpace(description), Pending, now, now))
      ensures r.Err? ==> taskMap == old(taskMap) && taskSlice == old(taskSlice)
      ensures r.Ok? ==> taskMap == old(taskMap)[r.value.taskId := r.value] && taskSlice == old(taskSlice) + [r.value]
    {
      var id := TrimSpace(taskId);
      if id == "" {
        return Err(InvalidArgument);
      }
      var trimmedTitle := TrimSpace(title);
      if trimmedTitle == "" {
        return Err(InvalidArgument);
      }
      if id in taskMap {
        return Err(AlreadyExists);
      }
      var task := NewTask(id, title, description, now);
      Insert(task);
      r := Ok(task);
    }

    /** ListTasks: one page of the insertion-ordered sequence; nothing changes. */
    method ListTasks(pageSize: Int32, pageToken: string) returns (r: Result<Page<Task>>)
      ensures r == Paginate(taskSlice, pageSize, pageToken)
    {
      r := Paginate(taskSlice, pageSize, pageToken);
    }

    /** Every stored task is found by GetTask under its own id. */
    lemma StoredTasksAreFound(i: nat)
      requires Valid() && i < |taskSlice|
      ensures var t := taskSlice[i];
        TrimSpace(t.taskId) == t.taskId != "" && t.taskId in taskMap && taskMap[t.taskId] == t
    {
      TrimSpaceFixed(taskSlice[i].taskId);
    }
  }

  /** Read-your-write: a task created and then fetched by its id comes back with the trimmed title and description. */
  method CreateThenGet(store: TaskServiceServer, title: string, description: string, uuid: string, now: Timestamp)
    returns (created: Result<Task>, got: Result<Task>)
    requires store.Valid() && !store.failNext
    requires IsUuid(uuid) && uuid !in store.taskMap
    requires TrimSpace(title) != ""
    modifies store
    ensures created == Ok(Task(uuid, TrimSpace(title), TrimSpace(description), Pending, now, now))
    ensures got == created
    ensures store.Valid()
  {
    created := store.CreateTask(title, description, uuid, now);
    UuidIsTrimmed(uuid);
    got := store.GetTask(uuid);
  }

  /** An armed switch fails exactly one create, whatever its title; the next create is judged on its title. */
  method InjectedFailure(store: TaskServiceServer, title: string, description: string, uuid: string, now: Timestamp)
    returns (first: Result<Task>, second: Result<Task>)
    requires store.Valid()
    requires IsUuid(uuid) && uuid !in store.taskMap
    modifies store
    ensures first == Err(Unavailable)
    ensures second.Ok? <==> TrimSpace(title) != ""
    ensures store.taskSlice == old(store.taskSlice) + (if second.Ok? then [second.value] else [])
    ensures store.Valid()
  {
    store.FailNextUnavailable();
    first := store.CreateTask(title, description, uuid, now);
    second := store.CreateTask(title, description, uuid, now);
  }

  /** A second create under a taken id fails with AlreadyExists and leaves the store as the first create left it. */
  method DuplicateId(store: TaskServiceServer, taskId: string, title1: string, title2: string, now: Timestamp)
    returns (first: Result<Task>, second: Result<Task>)
    requires store.Valid()
    requires TrimSpace(taskId) != "" && TrimSpace(title1) != "" && TrimSpace(title2) != ""
    modifies store
    ensures first.Ok? <==> TrimSpace(taskId) !in old(store.taskMap)
    ensures second == Err(AlreadyExists)
    ensures first.Ok? ==> store.taskSlice == old(store.taskSlice) + [first.value]
    ensures first.Err? ==> store.taskSlice == old(store.taskSlice)
    ensures store.Valid()
  {
    first := store.CreateTaskWithId(taskId, title1, "", now);
    second := store.CreateTaskWithId(taskId, title2, "", now);
  }
}
