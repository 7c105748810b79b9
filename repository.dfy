/**
 * The in-memory task repository of todo.py: id assignment, lookup, completion
 * and deletion over the ordered list of task records that one command loads.
 */
module Repository {
  import opened Wrappers

  /**
   * One task record. `createdAt` is None when the stored record has no
   * `created_at` key (only the display code tolerates that).
   */
  datatype Task = Task(id: int, text: string, completed: bool, createdAt: Option<string>)

  /** Some task in the list carries `id`. */
  predicate HasId(tasks: seq<Task>, id: int) {
    exists i :: 0 <= i < |tasks| && tasks[i].id == id
  }

  /** The collection invariant: every id is positive and no two tasks share one. */
  predicate ValidIds(tasks: seq<Task>) {
    && (forall i :: 0 <= i < |tasks| ==> tasks[i].id > 0)
    && (forall i, j :: 0 <= i < j < |tasks| ==> tasks[i].id != tasks[j].id)
  }

  /** Python's `max(task['id'] for task in tasks)` over a non-empty list. */
  function MaxId(tasks: seq<Task>): (m: int)
    requires tasks != []
    ensures forall i :: 0 <= i < |tasks| ==> tasks[i].id <= m
    ensures exists i :: 0 <= i < |tasks| && tasks[i].id == m
  {
    if |tasks| == 1 then tasks[0].id
    else
      var rest := MaxId(tasks[1..]);
      assert forall i :: 1 <= i < |tasks| ==> tasks[i].id == tasks[1..][i - 1].id;
      if tasks[0].id >= rest then tasks[0].id else rest
  }

  /** `get_next_id`: 1 for an empty list, otherwise one more than the largest id. */
  function NextId(tasks: seq<Task>): (r: int)
    ensures tasks == [] ==> r == 1
    ensures forall i :: 0 <= i < |tasks| ==> tasks[i].id < r
    ensures tasks != [] ==> exists i :: 0 <= i < |tasks| && tasks[i].id == r - 1
  {
    if tasks == [] then 1 else MaxId(tasks) + 1
  }

  /** The position of the first task carrying `id`, the record `find_task_by_id` returns. */
  function FirstIndex(tasks: seq<Task>, id: int): (r: Option<nat>)
    ensures r.None? <==> !HasId(tasks, id)
    ensures r.Some? ==>
              && r.value < |tasks| && tasks[r.value].id == id
              && forall j :: 0 <= j < r.value ==> tasks[j].id != id
  {
    if tasks == [] then None
    else if tasks[0].id == id then Some(0)
    else
      match FirstIndex(tasks[1..], id)
      case None =>
        assert forall i :: 1 <= i < |tasks| ==> tasks[i].id == tasks[1..][i - 1].id;
        None
      case Some(k) => Some(k + 1)
  }

  /**
   * `find_task_by_id`: a linear search that stops at the first match. Python
   * returns the record itself, which its callers then update or remove in
   * place; the model returns the record's position in the list.
   */
  method FindTaskById(id: int, tasks: seq<Task>) returns (r: Option<nat>)
    ensures r.None? <==> !HasId(tasks, id)
    ensures r.Some? ==>
              && r.value < |tasks| && tasks[r.value].id == id
              && forall j :: 0 <= j < r.value ==> tasks[j].id != id
    ensures r == FirstIndex(tasks, id)
  {
    for i := 0 to |tasks|
      invariant forall j :: 0 <= j < i ==> tasks[j].id != id
    {
      if tasks[i].id == id {
        return Some(i);
      }
    }
    return None;
  }

  /**
   * The list after `complete_task(id)`: the first task with that id is
   * marked completed, and nothing else changes.
   */
  function MarkCompleted(tasks: seq<Task>, id: int): (r: seq<Task>)
    ensures |r| == |tasks|
    ensures forall k :: 0 <= k < |tasks| ==>
              && r[k].id == tasks[k].id
              && r[k].text == tasks[k].text
              && r[k].createdAt == tasks[k].createdAt
              && r[k].completed == (tasks[k].completed || FirstIndex(tasks, id) == Some(k))
    ensures !HasId(tasks, id) ==> r == tasks
  {
    match FirstIndex(tasks, id)
    case None => tasks
    case Some(i) => tasks[i := tasks[i].(completed := true)]
  }

  /**
   * Python's `list.remove(x)`: drops the first element equal to `x`
   * (record equality compares every field). Python raises ValueError when
   * `x` is absent; its one caller never passes an absent record.
   */
  function RemoveFirst(tasks: seq<Task>, x: Task): (r: seq<Task>)
    requires x in tasks
    ensures |r| == |tasks| - 1
  {
    assert tasks == [tasks[0]] + tasks[1..];
    if tasks[0] == x then tasks[1..]
    else
      [tasks[0]] + RemoveFirst(tasks[1..], x)
  }

  /** `list.remove` loses exactly one copy of the removed record and keeps everything else. */
  lemma {:induction false} RemoveFirstDropsOne(tasks: seq<Task>, x: Task)
    requires x in tasks
    ensures multiset(RemoveFirst(tasks, x)) + multiset{x} == multiset(tasks)
  {
    assert tasks == [tasks[0]] + tasks[1..];
    if tasks[0] != x {
      RemoveFirstDropsOne(tasks[1..], x);
    }
  }

  /** The list after `delete_task(id)`: find the record, then `tasks.remove` it. */
  function WithoutId(tasks: seq<Task>, id: int): (r: seq<Task>)
    ensures !HasId(tasks, id) ==> r == tasks
    ensures HasId(tasks, id) ==>
              var i := FirstIndex(tasks, id).value;
              |r| == |tasks| - 1 && r == tasks[..i] + tasks[i + 1..]
  {
    match FirstIndex(tasks, id)
    case None => tasks
    case Some(i) =>
      RemoveFirstAt(tasks, i);
      RemoveFirst(tasks, tasks[i])
  }

  /**
   * Removing the first element equal to `tasks[i]`, when no earlier element
   * equals it, cuts out exactly position `i`.
   */
  lemma {:induction false} RemoveFirstAt(tasks: seq<Task>, i: nat)
    requires i < |tasks|
    requires forall j :: 0 <= j < i ==> tasks[j] != tasks[i]
    ensures RemoveFirst(tasks, tasks[i]) == tasks[..i] + tasks[i + 1..]
  {
    if i > 0 {
      var tail := tasks[1..];
      assert tasks[0] != tasks[i] && tail[i - 1] == tasks[i];
      forall j | 0 <= j < i - 1 ensures tail[j] != tail[i - 1] {
        assert tail[j] == tasks[j + 1];
      }
      RemoveFirstAt(tail, i - 1);
      assert RemoveFirst(tasks, tasks[i]) == [tasks[0]] + RemoveFirst(tail, tasks[i]);
      assert tasks[..i] == [tasks[0]] + tail[..i - 1];
      assert tasks[i + 1..] == tail[i..];
    }
  }

  /** `add_task` keeps ids positive and distinct. */
  lemma AddKeepsValidIds(tasks: seq<Task>, t: Task)
    requires ValidIds(tasks)
    requires t.id == NextId(tasks)
    ensures ValidIds(tasks + [t])
  {
  }

  /**
   * Each `add_task` assigns the next id above the one it just used, so a run
   * of adds assigns strictly increasing ids starting at 1 from an empty list.
   */
  lemma {:induction false} AddAdvancesNextId(tasks: seq<Task>, t: Task)
    requires t.id == NextId(tasks)
    ensures NextId(tasks + [t]) == t.id + 1
  {
    var r := tasks + [t];
    assert r[|tasks|] == t;
    var k :| 0 <= k < |r| && r[k].id == NextId(r) - 1;
    if k < |tasks| {
      assert r[k] == tasks[k];
    }
  }

  /** `complete_task` keeps every id where it was. */
  lemma CompleteKeepsValidIds(tasks: seq<Task>, id: int)
    requires ValidIds(tasks)
    ensures ValidIds(MarkCompleted(tasks, id))
  {
  }

  /** Completing twice leaves the same list as completing once. */
  lemma CompleteIsIdempotent(tasks: seq<Task>, id: int)
    ensures MarkCompleted(MarkCompleted(tasks, id), id) == MarkCompleted(tasks, id)
  {
  }

  /** Cutting one position out of a list with valid ids leaves valid ids, none equal to the cut one. */
  lemma CutKeepsValidIds(tasks: seq<Task>, i: nat)
    requires ValidIds(tasks) && i < |tasks|
    ensures ValidIds(tasks[..i] + tasks[i + 1..])
    ensures !HasId(tasks[..i] + tasks[i + 1..], tasks[i].id)
  {
  }

  /** `delete_task` keeps ids positive and distinct, and the deleted id is gone. */
  lemma DeleteKeepsValidIds(tasks: seq<Task>, id: int)
    requires ValidIds(tasks)
    ensures ValidIds(WithoutId(tasks, id))
    ensures !HasId(WithoutId(tasks, id), id)
  {
    if HasId(tasks, id) {
      CutKeepsValidIds(tasks, FirstIndex(tasks, id).value);
    }
  }

  /**
   * Ids are not reserved once deleted: `get_next_id` looks only at the tasks
   * still present, so after deleting the task with the largest id the next
   * add gets an id no larger than the deleted one.
   */
  lemma DeletingMaxLowersNextId(tasks: seq<Task>)
    requires ValidIds(tasks) && tasks != []
    ensures NextId(WithoutId(tasks, MaxId(tasks))) <= MaxId(tasks)
  {
  }

  /**
   * Deleting the task with the largest id `m` and adding one hands out `m`
   * again exactly when `m - 1` is also in use, or `m` was the only id and
   * equals 1.
   */
  lemma {:induction false} DeletingMaxReusesIdIff(tasks: seq<Task>)
    requires ValidIds(tasks) && tasks != []
    ensures var m := MaxId(tasks);
            NextId(WithoutId(tasks, m)) == m <==> HasId(tasks, m - 1) || (|tasks| == 1 && m == 1)
  {
    var m := MaxId(tasks);
    var rest := WithoutId(tasks, m);
    var i := FirstIndex(tasks, m).value;
    assert rest == tasks[..i] + tasks[i + 1..];
    DeleteKeepsValidIds(tasks, m);
    CutKeepsOtherIds(tasks, i, m - 1);
    forall j | 0 <= j < |rest| ensures rest[j].id < m {
      assert rest[j] == if j < i then tasks[j] else tasks[j + 1];
      assert rest[j].id != m;
    }
    NextIdBelow(rest, m);
  }

  /** For a list whose ids are all below `m`, the next id is `m` exactly when `m - 1` is taken (or the list is empty and `m` is 1). */
  lemma NextIdBelow(tasks: seq<Task>, m: int)
    requires forall j :: 0 <= j < |tasks| ==> tasks[j].id < m
    ensures NextId(tasks) == m <==> HasId(tasks, m - 1) || (tasks == [] && m == 1)
  {
    if tasks != [] {
      var k :| 0 <= k < |tasks| && tasks[k].id == NextId(tasks) - 1;
      assert tasks[k].id < m;
    }
  }

  /** Cutting position `i` out keeps every id other than the one at `i`. */
  lemma CutKeepsOtherIds(tasks: seq<Task>, i: nat, x: int)
    requires i < |tasks| && tasks[i].id != x
    ensures HasId(tasks[..i] + tasks[i + 1..], x) <==> HasId(tasks, x)
  {
    var rest := tasks[..i] + tasks[i + 1..];
    if HasId(tasks, x) {
      var j :| 0 <= j < |tasks| && tasks[j].id == x;
      if j < i { assert rest[j] == tasks[j]; } else { assert rest[j - 1] == tasks[j]; }
    }
    if HasId(rest, x) {
      var j :| 0 <= j < |rest| && rest[j].id == x;
      if j < i { assert rest[j] == tasks[j]; } else { assert rest[j] == tasks[j + 1]; }
    }
  }

  /** With the single task 1 deleted, the next add is given id 1 again. */
  lemma DeleteThenAddReusesId(t: Task)
    requires t.id == 1
    ensures NextId(WithoutId([t], 1)) == 1
  {
  }

  /**
   * The repository the handlers work on: the caller's list of task records,
   * updated in place by `add_task`, `complete_task` and `delete_task`.
   */
  class TaskList {
    var tasks: seq<Task>

    constructor (initial: seq<Task>)
      ensures tasks == initial
    {
      tasks := initial;
    }

    /** `add_task`: append a fresh, uncompleted task and return it. */
    method AddTask(text: string, createdAt: string) returns (t: Task)
      modifies this
      ensures t == Task(NextId(old(tasks)), text, false, Some(createdAt))
      ensures tasks == old(tasks) + [t]
    {
      t := Task(NextId(tasks), text, false, Some(createdAt));
      tasks := tasks + [t];
    }

    /** `complete_task`: mark the task with `id`; report whether there was one. */
    method CompleteTask(id: int) returns (ok: bool)
      modifies this
      ensures ok == HasId(old(tasks), id)
      ensures tasks == MarkCompleted(old(tasks), id)
    {
      var found := FindTaskById(id, tasks);
      if found.None? {
        return false;
      }
      var i := found.value;
      tasks := tasks[i := tasks[i].(completed := true)];
      return true;
    }

    /** `delete_task`: remove the task with `id`; report whether there was one. */
    method DeleteTask(id: int) returns (ok: bool)
      modifies this
      ensures ok == HasId(old(tasks), id)
      ensures tasks == WithoutId(old(tasks), id)
    {
      var found := FindTaskById(id, tasks);
      if found.None? {
        return false;
      }
      tasks := RemoveFirst(tasks, tasks[found.value]);
      return true;
    }
  }
}
