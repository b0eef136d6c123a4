/** The task service over the task table. The repository behind it is
    modelled as the table itself, a map from task id to task row: `findOne` is
    a lookup, `save` writes one row back, `delete` removes the row with the id
    and reports how many rows it removed. */
module Tasks {
  import opened Errors
  import opened TaskStatuses
  import TaskStatusPipe

  datatype Task = Task(id: int, title: string, description: string, status: TaskStatus)

  /** The body of the create route. */
  datatype CreateTaskDto = CreateTaskDto(title: string, description: string)

  /** The query of the list route, passed on to the repository untouched. */
  datatype GetTasksFilterDto = GetTasksFilterDto(status: Option<TaskStatus>, search: Option<string>)

  /** Decimal digits of a natural number, as a template literal prints it. */
  function NatToString(n: nat): string
  {
    var digit := ['0' + (n % 10) as char];
    if n < 10 then digit else NatToString(n / 10) + digit
  }

  function IntToString(n: int): string
  {
    if n < 0 then "-" + NatToString(-n) else NatToString(n)
  }

  /** The exception both lookup and delete throw for an id with no row. */
  function TaskNotFound(id: int): HttpError
  {
    NotFound("Task with id: " + IntToString(id) + " not found")
  }

  /** Every row is stored under its own id. */
  ghost predicate KeyedById(table: map<int, Task>)
  {
    forall id :: id in table ==> table[id].id == id
  }

  class TasksService {
    /** The task table behind the repository. */
    var table: map<int, Task>
    /** The id the repository gives the next task it creates. */
    var nextId: int
    /** The repository's filtered listing; its semantics are not part of this model. */
    const query: (GetTasksFilterDto, map<int, Task>) -> seq<Task>
    /** The status the repository gives a new task. */
    const initialStatus: TaskStatus

    ghost predicate Valid()
      reads this
    {
      KeyedById(table) && forall id :: id in table ==> id < nextId
    }

    /** The service over the rows the database already holds; `nextId` is the
        id the repository will give the next new task. */
    constructor (rows: map<int, Task>, nextId: int,
                 query: (GetTasksFilterDto, map<int, Task>) -> seq<Task>, initialStatus: TaskStatus)
      requires KeyedById(rows) && forall id :: id in rows ==> id < nextId
      ensures Valid()
      ensures table == rows && this.nextId == nextId
      ensures this.query == query && this.initialStatus == initialStatus
    {
      table := rows;
      this.nextId := nextId;
      this.query := query;
      this.initialStatus := initialStatus;
    }

    /** `getTasks`: the filter goes to the repository as it is, and its answer
        comes back as it is; the table is not touched. */
    method GetTasks(filter: GetTasksFilterDto) returns (r: seq<Task>)
      ensures r == query(filter, table)
    {
      r := query(filter, table);
    }

    /** `getTaskById`: the stored row, or NotFound naming the id. */
    method GetTaskById(id: int) returns (r: Result<Task>)
      requires Valid()
      ensures r.Ok? <==> id in table
      ensures r.Ok? ==> r.value == table[id] && r.value.id == id
      ensures r.Err? ==> r.error == TaskNotFound(id)
    {
      var found: Option<Task> := if id in table then Some(table[id]) else None;
      if found.None? {
        return Err(TaskNotFound(id));
      }
      r := Ok(found.value);
    }

    /** `createTask`: the repository stores a new row under a fresh id. */
    method CreateTask(dto: CreateTaskDto) returns (t: Task)
      requires Valid()
      modifies this
      ensures Valid()
      ensures t.id !in old(table)
      ensures t.title == dto.title && t.description == dto.description
      ensures t.status == initialStatus
      ensures table == old(table)[t.id := t]
    {
      t := Task(nextId, dto.title, dto.description, initialStatus);
      table := table[nextId := t];
      nextId := nextId + 1;
    }

    /** `updateTaskStatusById`: look the task up (inheriting NotFound), set its
        status, save that one row, return it. */
    method UpdateTaskStatusById(id: int, status: TaskStatus) returns (r: Result<Task>)
      requires Valid()
      modifies this
      ensures Valid()
      ensures r.Ok? <==> id in old(table)
      ensures r.Err? ==> r.error == TaskNotFound(id) && table == old(table)
      ensures r.Ok? ==> && r.value.id == id
                        && r.value.status == status
                        && r.value.title == old(table[id]).title
                        && r.value.description == old(table[id]).description
                        && table == old(table)[id := r.value]
      ensures nextId == old(nextId)
    {
      r := GetTaskById(id);
      if r.Err? {
        return;
      }
      var task := r.value.(status := status);
      table := table[task.id := task];
      r := Ok(task);
    }

    /** `deleteTaskById`: delete by id, and throw NotFound when no row was affected. */
    method DeleteTaskById(id: int) returns (r: Result<()>)
      requires Valid()
      modifies this
      ensures Valid()
      ensures r.Ok? <==> id in old(table)
      ensures r.Err? ==> r.error == TaskNotFound(id)
      ensures table == old(table) - {id}
      ensures nextId == old(nextId)
    {
      var affected: nat := if id in table then 1 else 0;
      table := table - {id};
      if affected < 1 {
        return Err(TaskNotFound(id));
      }
      r := Ok(());
    }
  }

  /** Deleting a task and then asking for it: the delete succeeds exactly when
      the task existed, every other row is left alone, and the lookup that
      follows throws NotFound either way. */
  method DeleteThenFetch(service: TasksService, id: int) returns (deleted: Result<()>, fetched: Result<Task>)
    requires service.Valid()
    modifies service
    ensures service.Valid()
    ensures deleted.Ok? <==> id in old(service.table)
    ensures forall k :: k in old(service.table) && k != id ==>
              k in service.table && service.table[k] == old(service.table[k])
    ensures fetched == Err(TaskNotFound(id))
  {
    deleted := service.DeleteTaskById(id);
    fetched := service.GetTaskById(id);
  }

  /** Updating a status and then reading the task back gives the updated row,
      and every other row is left alone. */
  method UpdateThenFetch(service: TasksService, id: int, status: TaskStatus)
    returns (updated: Result<Task>, fetched: Result<Task>)
    requires service.Valid()
    modifies service
    ensures service.Valid()
    ensures updated.Ok? <==> id in old(service.table)
    ensures fetched == updated
    ensures fetched.Ok? ==> fetched.value.status == status
    ensures forall k :: k in old(service.table) && k != id ==>
              k in service.table && service.table[k] == old(service.table[k])
  {
    updated := service.UpdateTaskStatusById(id, status);
    fetched := service.GetTaskById(id);
  }

  /** The status-update route: the body's `status` goes through the validation
      pipe (the normalising form, so only a status name reaches the service),
      then to the service. A rejected body leaves the table alone. */
  method PatchStatus(service: TasksService, id: int, body: Option<string>) returns (r: Result<Task>)
    requires service.Valid()
    modifies service
    ensures service.Valid()
    ensures TaskStatusPipe.Transform(body).Err? ==>
              r == Err(TaskStatusPipe.Transform(body).error) && service.table == old(service.table)
    ensures TaskStatusPipe.Transform(body).Ok? ==>
              (r.Ok? <==> id in old(service.table))
    ensures TaskStatusPipe.Transform(body).Ok? && r.Err? ==>
              r.error == TaskNotFound(id) && service.table == old(service.table)
    ensures r.Ok? ==> && id in old(service.table)
                      && r.value == old(service.table[id]).(status := r.value.status)
                      && r.value.status.Name() == TaskStatusPipe.ToUpperCase(body.value)
                      && service.table == old(service.table)[id := r.value]
  {
    var status := TaskStatusPipe.ParseStatus(body);
    if status.Err? {
      return Err(status.error);
    }
    r := service.UpdateTaskStatusById(id, status.value);
  }
}
