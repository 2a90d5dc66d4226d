/**
 * The task table as seen by the brute-force helpers: one record per task id,
 * read and updated a whole row at a time. Each helper is an `UPDATE ... WHERE
 * id = task_id`, so an unknown id leaves the store as it is.
 */
module TaskStore {

  import opened Wrappers

  /** The values the code writes into the `status` column. */
  datatype Status = Running | Completed | Failed

  datatype TaskRecord = TaskRecord(
    charset: string,
    maxLength: int,
    status: Status,
    progress: int,
    result: Option<string>)

  type Store = map<int, TaskRecord>

  /** What the status query returns for a known task. */
  datatype TaskStatusView = TaskStatusView(taskId: int, status: Status, progress: int, result: Option<string>)

  /** The largest `max_length` the submission form accepts. */
  const MaxLengthCap := 8

  /** The row the submission endpoint inserts before the search starts. */
  function InsertTask(s: Store, id: int, charset: string, maxLength: int): (s': Store)
    requires id !in s && maxLength <= MaxLengthCap
    ensures s'.Keys == s.Keys + {id}
    ensures s'[id].status == Running && s'[id].progress == 0 && s'[id].result == None
    ensures forall k :: k in s ==> s'[k] == s[k]
  {
    s[id := TaskRecord(charset, maxLength, Running, 0, None)]
  }

  /** `update_task_progress`: progress below 100 keeps the task running, otherwise marks it completed. */
  function UpdateTaskProgress(s: Store, id: int, progress: int): Store
  {
    if id in s then
      s[id := s[id].(progress := progress, status := if progress < 100 then Running else Completed)]
    else s
  }

  /** `complete_task`: completed, with the found password and progress 100. */
  function CompleteTask(s: Store, id: int, result: string): Store
  {
    if id in s then
      s[id := s[id].(status := Completed, result := Some(result), progress := 100)]
    else s
  }

  /** `fail_task`: failed with progress 100; the result column is not written. */
  function FailTask(s: Store, id: int): Store
  {
    if id in s then s[id := s[id].(status := Failed, progress := 100)] else s
  }

  /** `get_task_status`: `None` for an unknown id, otherwise the four public fields. */
  function GetTaskStatus(s: Store, id: int): (r: Option<TaskStatusView>)
  {
    if id in s then Some(TaskStatusView(id, s[id].status, s[id].progress, s[id].result)) else None
  }

  /** Every stored progress lies in the range the status schema accepts. */
  ghost predicate ProgressInRange(s: Store)
  {
    forall k :: k in s ==> 0 <= s[k].progress <= 100
  }

  // ---------------------------------------------------------------------------
  // Read-after-write: what the status query reports after each helper

  lemma StatusAfterInsert(s: Store, id: int, charset: string, maxLength: int)
    requires id !in s && maxLength <= MaxLengthCap
    ensures GetTaskStatus(s, id) == None
    ensures GetTaskStatus(InsertTask(s, id, charset, maxLength), id)
      == Some(TaskStatusView(id, Running, 0, None))
  {
  }

  lemma StatusAfterProgress(s: Store, id: int, progress: int)
    ensures GetTaskStatus(UpdateTaskProgress(s, id, progress), id) ==
      if id !in s then None
      else Some(TaskStatusView(id, if progress < 100 then Running else Completed, progress, s[id].result))
  {
  }

  lemma StatusAfterComplete(s: Store, id: int, result: string)
    ensures GetTaskStatus(CompleteTask(s, id, result), id) ==
      if id !in s then None else Some(TaskStatusView(id, Completed, 100, Some(result)))
  {
  }

  lemma StatusAfterFail(s: Store, id: int)
    ensures GetTaskStatus(FailTask(s, id), id) ==
      if id !in s then None else Some(TaskStatusView(id, Failed, 100, s[id].result))
  {
  }

  /** No helper changes what the status query reports for another task. */
  lemma OtherTasksUnaffected(s: Store, id: int, other: int, progress: int, result: string)
    requires other != id
    ensures GetTaskStatus(UpdateTaskProgress(s, id, progress), other) == GetTaskStatus(s, other)
    ensures GetTaskStatus(CompleteTask(s, id, result), other) == GetTaskStatus(s, other)
    ensures GetTaskStatus(FailTask(s, id), other) == GetTaskStatus(s, other)
  {
  }

  /** The helpers keep every progress in [0, 100] when given progress values in it. */
  lemma ProgressStaysInRange(s: Store, id: int, progress: int, result: string)
    requires ProgressInRange(s) && 0 <= progress <= 100
    ensures ProgressInRange(UpdateTaskProgress(s, id, progress))
    ensures ProgressInRange(CompleteTask(s, id, result))
    ensures ProgressInRange(FailTask(s, id))
  {
  }

  // ---------------------------------------------------------------------------
  // A sequence of progress writes, and how a terminal write absorbs it

  /** The store after the progress writes `ps`, in order. */
  function ApplyProgress(s: Store, id: int, ps: seq<int>): (s': Store)
    ensures s'.Keys == s.Keys
  {
    if ps == [] then s else UpdateTaskProgress(ApplyProgress(s, id, ps[..|ps| - 1]), id, ps[|ps| - 1])
  }

  lemma ApplyProgressAppend(s: Store, id: int, ps: seq<int>, p: int)
    ensures ApplyProgress(s, id, ps + [p]) == UpdateTaskProgress(ApplyProgress(s, id, ps), id, p)
  {
    assert (ps + [p])[..|ps|] == ps;
  }

  /** After progress writes, the row differs from the original at most in status and progress. */
  lemma {:induction false} ProgressKeepsResult(s: Store, id: int, ps: seq<int>)
    requires id in s
    ensures ApplyProgress(s, id, ps)[id] == s[id].(status := ApplyProgress(s, id, ps)[id].status,
                                                   progress := ApplyProgress(s, id, ps)[id].progress)
  {
    if ps != [] {
      ProgressKeepsResult(s, id, ps[..|ps| - 1]);
    }
  }

  /** Progress writes for one task leave every other row as it was. */
  lemma {:induction false} ProgressKeepsOthers(s: Store, id: int, ps: seq<int>, other: int)
    requires other in s && other != id
    ensures ApplyProgress(s, id, ps)[other] == s[other]
  {
    if ps != [] {
      ProgressKeepsOthers(s, id, ps[..|ps| - 1], other);
    }
  }

  /** The last progress write is what the status query reports, with the result left as it was. */
  lemma {:induction false} LastProgressWins(s: Store, id: int, ps: seq<int>)
    requires id in s && ps != []
    ensures var row := ApplyProgress(s, id, ps)[id];
      && row.progress == ps[|ps| - 1]
      && row.status == (if ps[|ps| - 1] < 100 then Running else Completed)
      && row.result == s[id].result
  {
    ProgressKeepsResult(s, id, ps);
    assert id in ApplyProgress(s, id, ps[..|ps| - 1]);
  }

  /** A failing write leaves the same store whatever progress writes came before it. */
  lemma {:induction false} FailAbsorbsProgress(s: Store, id: int, ps: seq<int>)
    ensures FailTask(ApplyProgress(s, id, ps), id) == FailTask(s, id)
  {
    if id in s {
      ProgressKeepsResult(s, id, ps);
    }
    forall other | other in s && other != id
      ensures ApplyProgress(s, id, ps)[other] == s[other]
    {
      ProgressKeepsOthers(s, id, ps, other);
    }
  }

  /** A completing write leaves the same store whatever progress writes came before it. */
  lemma {:induction false} CompleteAbsorbsProgress(s: Store, id: int, ps: seq<int>, result: string)
    ensures CompleteTask(ApplyProgress(s, id, ps), id, result) == CompleteTask(s, id, result)
  {
    if id in s {
      ProgressKeepsResult(s, id, ps);
    }
    forall other | other in s && other != id
      ensures ApplyProgress(s, id, ps)[other] == s[other]
    {
      ProgressKeepsOthers(s, id, ps, other);
    }
  }
}
