/** The ordering of tasks on the Kanban board, as values: every (project,
    status) pair is a column, and a task's `position` orders it within its
    column. `Renumber` is the effect of the loops that write `position: i`
    for the i-th id of a list; the lemmas say what that does to a column
    listed in ascending position (`reindexColumn`), to the list the move
    builds (`moveTaskTransactional`), and to a client-supplied list
    (`bulk_reorder`). */
module ColumnOrder {
  import opened Wrappers

  datatype Status = Todo | InProgress | Review | Done
  datatype Priority = Low | Medium | High | Urgent

  /** A row of the `Task` table. Dates are milliseconds since the epoch. */
  datatype Task = Task(id: string, projectId: string, title: string, description: Option<string>,
                       status: Status, priority: Priority, dueDate: Option<int>, position: int,
                       assigneeId: Option<string>, createdById: string)

  type Tasks = map<string, Task>

  predicate InColumn(t: Task, projectId: string, status: Status) {
    t.projectId == projectId && t.status == status
  }

  predicate NoDup(ids: seq<string>) {
    forall i, j :: 0 <= i < j < |ids| ==> ids[i] != ids[j]
  }

  /** `ids` lists the column's tasks, each exactly once, in some order. */
  predicate Enumerates(tasks: Tasks, projectId: string, status: Status, ids: seq<string>) {
    (forall i :: 0 <= i < |ids| ==> ids[i] in tasks && InColumn(tasks[ids[i]], projectId, status))
    && (forall id :: id in tasks && InColumn(tasks[id], projectId, status) ==> id in ids)
    && NoDup(ids)
  }

  /** Positions never decrease along `ids`. */
  predicate Ascending(tasks: Tasks, ids: seq<string>) {
    (forall i :: 0 <= i < |ids| ==> ids[i] in tasks)
    && (forall i, j :: 0 <= i < j < |ids| ==> tasks[ids[i]].position <= tasks[ids[j]].position)
  }

  /** A valid answer to `findMany({ where: { projectId, status }, orderBy:
      { position: "asc" } })`: the column in ascending position, ties in
      any order. */
  predicate IsListing(tasks: Tasks, projectId: string, status: Status, ids: seq<string>) {
    Enumerates(tasks, projectId, status, ids) && Ascending(tasks, ids)
  }

  /** The i-th id of `ids` sits at position i. */
  predicate Dense(tasks: Tasks, ids: seq<string>) {
    forall k :: 0 <= k < |ids| ==> ids[k] in tasks && tasks[ids[k]].position == k
  }

  predicate ColumnEmpty(tasks: Tasks, projectId: string, status: Status) {
    forall id :: id in tasks ==> !InColumn(tasks[id], projectId, status)
  }

  /** Two rows that differ at most in their position. */
  predicate SameButPosition(a: Task, b: Task) {
    a == b.(position := a.position)
  }

  /** The effect of `update({ where: { id: ids[i] }, data: { position: i } })`
      for i = 0, 1, ...: only the listed tasks change, and only in their
      position (`RenumberLast` says which position). */
  function Renumber(tasks: Tasks, ids: seq<string>): (r: Tasks)
    ensures r.Keys == tasks.Keys
    ensures forall id :: id in tasks ==> SameButPosition(r[id], tasks[id])
    ensures forall id :: id in tasks && id !in ids ==> r[id] == tasks[id]
    decreases |ids|
  {
    if |ids| == 0 then tasks
    else
      var n := |ids| - 1;
      var prev := Renumber(tasks, ids[..n]);
      var id := ids[n];
      if id in prev then prev[id := prev[id].(position := n)] else prev
  }

  /** A listed task ends at the index of its last occurrence. */
  lemma {:induction false} RenumberLast(tasks: Tasks, ids: seq<string>, k: nat)
    requires k < |ids| && ids[k] in tasks && ids[k] !in ids[k + 1..]
    ensures Renumber(tasks, ids)[ids[k]].position == k
    decreases |ids|
  {
    var n := |ids| - 1;
    if k < n {
      assert ids[n] in ids[k + 1..];
      assert ids[..n][k + 1..] == ids[k + 1..n];
      assert ids[k] !in ids[..n][k + 1..];
      RenumberLast(tasks, ids[..n], k);
    }
  }

  lemma NoDupLast(ids: seq<string>, k: nat)
    requires NoDup(ids) && k < |ids|
    ensures ids[k] !in ids[k + 1..]
  {
    forall m | k + 1 <= m < |ids| ensures ids[m] != ids[k] {
    }
  }

  /** Removing the moved task from the destination list: `dest.filter(t => t.id !== taskId)`. */
  function Without(ids: seq<string>, x: string): (r: seq<string>)
    ensures x !in r
    ensures forall y :: y in r <==> y in ids && y != x
    ensures |r| <= |ids|
    decreases |ids|
  {
    if |ids| == 0 then []
    else if ids[0] == x then Without(ids[1..], x)
    else [ids[0]] + Without(ids[1..], x)
  }

  /** `filtered.splice(idx, 0, { id: taskId })`. */
  function InsertAt(ids: seq<string>, idx: nat, x: string): (r: seq<string>)
    requires idx <= |ids|
    ensures |r| == |ids| + 1 && r[idx] == x
    ensures forall i :: 0 <= i < idx ==> r[i] == ids[i]
    ensures forall i :: idx <= i < |ids| ==> r[i + 1] == ids[i]
  {
    ids[..idx] + [x] + ids[idx..]
  }

  /** A JavaScript number argument: finite, or NaN or an infinity. */
  datatype NumberArg = Finite(value: real) | NonFinite

  /** `Number.isFinite(toIndex) ? Math.max(0, Math.min(toIndex, len)) : len`,
      as `splice` then reads it: truncated to an integer. */
  function ClampIndex(toIndex: NumberArg, len: nat): (idx: nat)
    ensures idx <= len
    ensures toIndex.NonFinite? ==> idx == len
    ensures toIndex.Finite? && toIndex.value <= 0.0 ==> idx == 0
    ensures toIndex.Finite? && toIndex.value >= len as real ==> idx == len
    ensures toIndex.Finite? && 0.0 <= toIndex.value <= len as real ==>
      idx as real <= toIndex.value < idx as real + 1.0
  {
    match toIndex
    case NonFinite => len
    case Finite(x) =>
      if x <= 0.0 then 0
      else if x >= len as real then len
      else x.Floor
  }

  // ---------------------------------------------------------------------
  // Facts about lists

  lemma WithoutKeepsNoDup(ids: seq<string>, x: string)
    requires NoDup(ids)
    ensures NoDup(Without(ids, x))
    decreases |ids|
  {
    if |ids| > 0 {
      assert NoDup(ids[1..]);
      WithoutKeepsNoDup(ids[1..], x);
      assert ids[0] !in ids[1..];
    }
  }

  /** Filtering keeps the survivors in their order: an ascending list stays
      ascending. */
  lemma {:induction false} WithoutKeepsAscending(tasks: Tasks, ids: seq<string>, x: string)
    requires Ascending(tasks, ids)
    ensures Ascending(tasks, Without(ids, x))
    decreases |ids|
  {
    if |ids| > 0 {
      assert Ascending(tasks, ids[1..]);
      WithoutKeepsAscending(tasks, ids[1..], x);
      var rest := Without(ids[1..], x);
      forall j | 0 <= j < |rest| ensures tasks[ids[0]].position <= tasks[rest[j]].position {
        assert rest[j] in ids[1..];
        var k :| 0 <= k < |ids[1..]| && ids[1..][k] == rest[j];
        assert ids[k + 1] == rest[j];
      }
    }
  }

  lemma InsertKeepsNoDup(ids: seq<string>, idx: nat, x: string)
    requires NoDup(ids) && x !in ids && idx <= |ids|
    ensures NoDup(InsertAt(ids, idx, x))
  {
    var r := InsertAt(ids, idx, x);
    forall i, j | 0 <= i < j < |r| ensures r[i] != r[j] {
      if i < idx && j > idx { assert r[j] == ids[j - 1]; }
      else if i > idx { assert r[i] == ids[i - 1] && r[j] == ids[j - 1]; }
      else if i == idx { assert r[j] == ids[j - 1]; }
    }
  }

  /** Renumbering a duplicate-free list makes it dense. */
  lemma RenumberDense(tasks: Tasks, ids: seq<string>)
    requires NoDup(ids) && forall i :: 0 <= i < |ids| ==> ids[i] in tasks
    ensures Dense(Renumber(tasks, ids), ids)
  {
    forall k | 0 <= k < |ids| ensures Renumber(tasks, ids)[ids[k]].position == k {
      NoDupLast(ids, k);
      RenumberLast(tasks, ids, k);
    }
  }

  /** Renumbering changes positions only, so column membership is kept. */
  lemma RenumberKeepsColumns(tasks: Tasks, ids: seq<string>, projectId: string, status: Status, col: seq<string>)
    requires Enumerates(tasks, projectId, status, col)
    ensures Enumerates(Renumber(tasks, ids), projectId, status, col)
  {
    var r := Renumber(tasks, ids);
    forall id | id in r && InColumn(r[id], projectId, status) ensures id in col {
      assert SameButPosition(r[id], tasks[id]);
    }
  }

  // ---------------------------------------------------------------------
  // reindexColumn

  /** After `reindexColumn` the column holds positions 0..n-1 in the order
      of the listing; a task that was strictly before another stays before
      it; no task outside the column changes, and inside it only positions
      change. */
  lemma ReindexProperties(tasks: Tasks, projectId: string, status: Status, ids: seq<string>)
    requires IsListing(tasks, projectId, status, ids)
    ensures var r := Renumber(tasks, ids);
      Dense(r, ids) && Enumerates(r, projectId, status, ids)
      && (forall a, b :: a in ids && b in ids && tasks[a].position < tasks[b].position
            ==> r[a].position < r[b].position)
      && (forall id :: id in tasks && !InColumn(tasks[id], projectId, status) ==> r[id] == tasks[id])
  {
    var r := Renumber(tasks, ids);
    RenumberDense(tasks, ids);
    RenumberKeepsColumns(tasks, ids, projectId, status, ids);
    forall a, b | a in ids && b in ids && tasks[a].position < tasks[b].position
      ensures r[a].position < r[b].position
    {
      var i :| 0 <= i < |ids| && ids[i] == a;
      var j :| 0 <= j < |ids| && ids[j] == b;
      if j <= i {
        AscendingPair(tasks, ids, j, i);
        assert false;
      }
    }
  }

  lemma AscendingPair(tasks: Tasks, ids: seq<string>, i: nat, j: nat)
    requires Ascending(tasks, ids) && i <= j < |ids|
    ensures tasks[ids[i]].position <= tasks[ids[j]].position
  {
    if i < j {
      assert tasks[ids[i]].position <= tasks[ids[j]].position;
    }
  }

  lemma FirstListed(tasks: Tasks, projectId: string, status: Status, ids: seq<string>)
    requires Enumerates(tasks, projectId, status, ids) && |ids| > 0
    ensures !ColumnEmpty(tasks, projectId, status)
  {
    assert ids[0] in tasks && InColumn(tasks[ids[0]], projectId, status);
  }

  lemma ReindexEmptyListing(tasks: Tasks, projectId: string, status: Status, ids: seq<string>)
    requires Enumerates(tasks, projectId, status, ids) && |ids| == 0
    ensures ColumnEmpty(tasks, projectId, status)
  {
  }

  /** An empty column has nothing to reindex. */
  lemma ReindexEmpty(tasks: Tasks, projectId: string, status: Status, ids: seq<string>)
    requires IsListing(tasks, projectId, status, ids) && ColumnEmpty(tasks, projectId, status)
    ensures ids == [] && Renumber(tasks, ids) == tasks
  {
    if |ids| > 0 {
      FirstListed(tasks, projectId, status, ids);
      assert false;
    }
  }

  // ---------------------------------------------------------------------
  // moveTaskTransactional

  /** The table after the moved task's status is set. */
  function WithStatus(tasks: Tasks, taskId: string, toStatus: Status): Tasks
    requires taskId in tasks
  {
    tasks[taskId := tasks[taskId].(status := toStatus)]
  }

  /** The destination list the move writes: the destination column without
      the moved task, with it spliced in at the clamped index. */
  function MoveOrder(dest: seq<string>, taskId: string, toIndex: NumberArg): seq<string> {
    var filtered := Without(dest, taskId);
    InsertAt(filtered, ClampIndex(toIndex, |filtered|), taskId)
  }

  /** Once the moved task's status is the destination's, the move's list is
      exactly the destination column, each task once. */
  lemma MoveOrderEnumerates(tasks: Tasks, projectId: string, taskId: string, toStatus: Status,
                            toIndex: NumberArg, dest: seq<string>)
    requires taskId in tasks && tasks[taskId].projectId == projectId
    requires Enumerates(tasks, projectId, toStatus, dest)
    ensures Enumerates(WithStatus(tasks, taskId, toStatus), projectId, toStatus, MoveOrder(dest, taskId, toIndex))
  {
    var t1 := WithStatus(tasks, taskId, toStatus);
    var filtered := Without(dest, taskId);
    var idx := ClampIndex(toIndex, |filtered|);
    var order := MoveOrder(dest, taskId, toIndex);
    WithoutKeepsNoDup(dest, taskId);
    InsertKeepsNoDup(filtered, idx, taskId);
    forall i | 0 <= i < |order| ensures order[i] in t1 && InColumn(t1[order[i]], projectId, toStatus) {
      if i != idx {
        assert order[i] in filtered by {
          if i < idx { assert order[i] == filtered[i]; } else { assert order[i] == filtered[i - 1]; }
        }
      }
    }
    forall id | id in t1 && InColumn(t1[id], projectId, toStatus) ensures id in order {
      if id != taskId {
        assert id in filtered;
        var k :| 0 <= k < |filtered| && filtered[k] == id;
        if k < idx { assert order[k] == id; } else { assert order[k + 1] == id; }
      }
    }
  }

  /** What a move does to the table, given the destination listing `dest`
      the first query returns and the source listing `src` the reindex
      query returns: the moved task takes the destination status and its slot,
      the destination column is renumbered in the move's list order, and a
      different source column is reindexed. */
  function MoveResult(tasks: Tasks, taskId: string, toStatus: Status, toIndex: NumberArg,
                      dest: seq<string>, src: seq<string>): Tasks
    requires taskId in tasks
  {
    var mid := Renumber(WithStatus(tasks, taskId, toStatus), MoveOrder(dest, taskId, toIndex));
    if tasks[taskId].status != toStatus then Renumber(mid, src) else mid
  }

  /** The table in the middle of a move, before the source column is
      reindexed. */
  function MoveMiddle(tasks: Tasks, taskId: string, toStatus: Status, toIndex: NumberArg,
                      dest: seq<string>): Tasks
    requires taskId in tasks
  {
    Renumber(WithStatus(tasks, taskId, toStatus), MoveOrder(dest, taskId, toIndex))
  }

  /** The destination side of a move: the destination column is dense in
      the move's list order and the moved task is at the clamped index with the
      new status. */
  lemma MoveDestination(tasks: Tasks, projectId: string, taskId: string, toStatus: Status,
                        toIndex: NumberArg, dest: seq<string>)
    requires taskId in tasks && tasks[taskId].projectId == projectId
    requires IsListing(tasks, projectId, toStatus, dest)
    ensures var mid := MoveMiddle(tasks, taskId, toStatus, toIndex, dest);
      var order := MoveOrder(dest, taskId, toIndex);
      Dense(mid, order) && Enumerates(mid, projectId, toStatus, order)
      && mid.Keys == tasks.Keys && mid[taskId].status == toStatus
      && mid[taskId].position == ClampIndex(toIndex, |Without(dest, taskId)|)
  {
    var t1 := WithStatus(tasks, taskId, toStatus);
    var order := MoveOrder(dest, taskId, toIndex);
    MoveOrderEnumerates(tasks, projectId, taskId, toStatus, toIndex, dest);
    RenumberDense(t1, order);
    RenumberKeepsColumns(t1, order, projectId, toStatus, order);
    assert order[ClampIndex(toIndex, |Without(dest, taskId)|)] == taskId;
  }

  /** Each task that was already in the destination column sits at its
      index in the filtered list, shifted by one past the inserted task. */
  lemma MoveShiftsOthers(tasks: Tasks, projectId: string, taskId: string, toStatus: Status,
                         toIndex: NumberArg, dest: seq<string>, i: nat)
    requires taskId in tasks && tasks[taskId].projectId == projectId
    requires IsListing(tasks, projectId, toStatus, dest)
    requires i < |Without(dest, taskId)|
    ensures var mid := MoveMiddle(tasks, taskId, toStatus, toIndex, dest);
      var filtered := Without(dest, taskId);
      filtered[i] in mid
      && mid[filtered[i]].position == if i < ClampIndex(toIndex, |filtered|) then i else i + 1
  {
    var order := MoveOrder(dest, taskId, toIndex);
    var filtered := Without(dest, taskId);
    MoveDestination(tasks, projectId, taskId, toStatus, toIndex, dest);
    assert order[if i < ClampIndex(toIndex, |filtered|) then i else i + 1] == filtered[i];
  }

  /** The other tasks of the destination column keep their relative order:
      they were ascending before the move and are strictly ascending after. */
  lemma MoveKeepsOrder(tasks: Tasks, projectId: string, taskId: string, toStatus: Status,
                       toIndex: NumberArg, dest: seq<string>)
    requires taskId in tasks && tasks[taskId].projectId == projectId
    requires IsListing(tasks, projectId, toStatus, dest)
    ensures Ascending(tasks, Without(dest, taskId))
    ensures var mid := MoveMiddle(tasks, taskId, toStatus, toIndex, dest);
      var filtered := Without(dest, taskId);
      forall i, j :: 0 <= i < j < |filtered| ==>
        filtered[i] in mid && filtered[j] in mid && mid[filtered[i]].position < mid[filtered[j]].position
  {
    WithoutKeepsAscending(tasks, dest, taskId);
    var filtered := Without(dest, taskId);
    forall i, j | 0 <= i < j < |filtered|
      ensures var mid := MoveMiddle(tasks, taskId, toStatus, toIndex, dest);
        filtered[i] in mid && filtered[j] in mid && mid[filtered[i]].position < mid[filtered[j]].position
    {
      MoveShiftsOthers(tasks, projectId, taskId, toStatus, toIndex, dest, i);
      MoveShiftsOthers(tasks, projectId, taskId, toStatus, toIndex, dest, j);
    }
  }

  /** A move changes nothing outside the moved task and the destination column. */
  lemma MoveFrame(tasks: Tasks, projectId: string, taskId: string, toStatus: Status,
                  toIndex: NumberArg, dest: seq<string>)
    requires taskId in tasks && tasks[taskId].projectId == projectId
    requires IsListing(tasks, projectId, toStatus, dest)
    ensures var mid := MoveMiddle(tasks, taskId, toStatus, toIndex, dest);
      forall id :: id in tasks && id != taskId && !InColumn(tasks[id], projectId, toStatus) ==> mid[id] == tasks[id]
  {
    var order := MoveOrder(dest, taskId, toIndex);
    MoveOrderEnumerates(tasks, projectId, taskId, toStatus, toIndex, dest);
    var t1 := WithStatus(tasks, taskId, toStatus);
    forall id | id in tasks && id != taskId && !InColumn(tasks[id], projectId, toStatus)
      ensures id !in order
    {
      assert !InColumn(t1[id], projectId, toStatus);
    }
  }

  /** The source side of a move between columns: after the second reindex
      the source column (now without the moved task) is dense in its listing
      order, and the destination column keeps its new positions. */
  lemma MoveSource(tasks: Tasks, projectId: string, taskId: string, toStatus: Status,
                   toIndex: NumberArg, dest: seq<string>, src: seq<string>)
    requires taskId in tasks && tasks[taskId].projectId == projectId
    requires tasks[taskId].status != toStatus
    requires IsListing(tasks, projectId, toStatus, dest)
    requires IsListing(MoveMiddle(tasks, taskId, toStatus, toIndex, dest), projectId, tasks[taskId].status, src)
    ensures var r := MoveResult(tasks, taskId, toStatus, toIndex, dest, src);
      Dense(r, src) && Dense(r, MoveOrder(dest, taskId, toIndex))
      && taskId !in src
      && (forall id ::
            (id in tasks && id != taskId && !InColumn(tasks[id], projectId, toStatus)
             && !InColumn(tasks[id], projectId, tasks[taskId].status))
            ==> r[id] == tasks[id])
  {
    var mid := MoveMiddle(tasks, taskId, toStatus, toIndex, dest);
    var order := MoveOrder(dest, taskId, toIndex);
    var from := tasks[taskId].status;
    MoveDestination(tasks, projectId, taskId, toStatus, toIndex, dest);
    MoveFrame(tasks, projectId, taskId, toStatus, toIndex, dest);
    ReindexProperties(mid, projectId, from, src);
    forall i | 0 <= i < |src| ensures src[i] != taskId {
      assert InColumn(mid[src[i]], projectId, from);
    }
    forall k | 0 <= k < |order| ensures Renumber(mid, src)[order[k]].position == k {
      assert InColumn(mid[order[k]], projectId, toStatus);
      assert !InColumn(mid[order[k]], projectId, from);
    }
    forall id | id in tasks && id != taskId && !InColumn(tasks[id], projectId, toStatus)
        && !InColumn(tasks[id], projectId, from)
      ensures Renumber(mid, src)[id] == tasks[id]
    {
      assert mid[id] == tasks[id];
    }
  }

  /** A move within one column leaves every other column alone. */
  lemma SameColumnMove(tasks: Tasks, projectId: string, taskId: string, toIndex: NumberArg, dest: seq<string>)
    requires taskId in tasks && tasks[taskId].projectId == projectId
    requires IsListing(tasks, projectId, tasks[taskId].status, dest)
    ensures var st := tasks[taskId].status;
      var r := MoveResult(tasks, taskId, st, toIndex, dest, []);
      Dense(r, MoveOrder(dest, taskId, toIndex))
      && (forall id :: id in tasks && !InColumn(tasks[id], projectId, st) ==> r[id] == tasks[id])
  {
    var st := tasks[taskId].status;
    MoveDestination(tasks, projectId, taskId, st, toIndex, dest);
    MoveFrame(tasks, projectId, taskId, st, toIndex, dest);
  }

  // ---------------------------------------------------------------------
  // bulk_reorder

  /** Every id of the list is a task of the column. */
  predicate AllInColumn(tasks: Tasks, projectId: string, status: Status, ids: seq<string>) {
    forall i :: 0 <= i < |ids| ==> ids[i] in tasks && InColumn(tasks[ids[i]], projectId, status)
  }

  /** A list that names every task of the column exactly once leaves the
      column dense in the list's order. */
  lemma BulkReorderPermutation(tasks: Tasks, projectId: string, status: Status, ids: seq<string>)
    requires Enumerates(tasks, projectId, status, ids)
    ensures Dense(Renumber(tasks, ids), ids)
    ensures Enumerates(Renumber(tasks, ids), projectId, status, ids)
  {
    RenumberDense(tasks, ids);
    RenumberKeepsColumns(tasks, ids, projectId, status, ids);
  }

  /** The list is not required to cover the column: reordering only the
      second of two tasks at positions 0 and 1 puts both at position 0. */
  lemma PartialReorderDuplicates(a: Task, b: Task)
    requires a.id == "a" && b.id == "b" && a.position == 0 && b.position == 1
    requires InColumn(a, b.projectId, b.status)
    ensures var tasks := map["a" := a, "b" := b];
      AllInColumn(tasks, b.projectId, b.status, ["b"])
      && Renumber(tasks, ["b"])["a"].position == 0 && Renumber(tasks, ["b"])["b"].position == 0
  {
    var tasks := map["a" := a, "b" := b];
    assert ["b"][1..] == [];
    RenumberLast(tasks, ["b"], 0);
  }

  /** Nor to be free of repeats: a repeated id ends at its last index, and
      the index it skipped stays empty. */
  lemma RepeatedIdTakesLastIndex(t: Task)
    requires t.id == "a"
    ensures Renumber(map["a" := t], ["a", "a"])["a"].position == 1
  {
    RenumberLast(map["a" := t], ["a", "a"], 1);
  }

  // ---------------------------------------------------------------------
  // Create and the end of a column

  /** `getMaxPosition(projectId, status)`: the largest position in the
      column, or -1 when the column is empty. */
  ghost predicate IsMaxPosition(tasks: Tasks, projectId: string, status: Status, max: int) {
    (ColumnEmpty(tasks, projectId, status) ==> max == -1)
    && (!ColumnEmpty(tasks, projectId, status) ==>
          exists id :: id in tasks && InColumn(tasks[id], projectId, status) && tasks[id].position == max)
    && (forall id :: id in tasks && InColumn(tasks[id], projectId, status) ==> tasks[id].position <= max)
  }

  /** `getMaxPosition(...) + 1`, as the create and the status-changing PATCH
      use it, is 0 for an empty column and otherwise one past every task of
      the column: the new task sorts last. */
  lemma AfterMaxIsLast(tasks: Tasks, projectId: string, status: Status, max: int)
    requires IsMaxPosition(tasks, projectId, status, max)
    ensures forall id :: id in tasks && InColumn(tasks[id], projectId, status) ==> tasks[id].position < max + 1
    ensures ColumnEmpty(tasks, projectId, status) ==> max + 1 == 0
  {
  }

  /** In a dense column the maximum is the column's size less one, so the
      task created at max+1 takes the next free slot. */
  lemma DenseMax(tasks: Tasks, projectId: string, status: Status, ids: seq<string>, max: int)
    requires IsListing(tasks, projectId, status, ids) && Dense(tasks, ids)
    requires IsMaxPosition(tasks, projectId, status, max)
    ensures max + 1 == |ids|
  {
    if |ids| == 0 {
      ReindexEmptyListing(tasks, projectId, status, ids);
    } else {
      FirstListed(tasks, projectId, status, ids);
      var id :| id in tasks && InColumn(tasks[id], projectId, status) && tasks[id].position == max;
      var k :| 0 <= k < |ids| && ids[k] == id;
      assert ids[|ids| - 1] in tasks && InColumn(tasks[ids[|ids| - 1]], projectId, status);
    }
  }

  /** Appending at max+1 to a dense column keeps it dense with the new task
      last. */
  lemma AppendKeepsDense(tasks: Tasks, projectId: string, status: Status, ids: seq<string>, t: Task)
    requires IsListing(tasks, projectId, status, ids) && Dense(tasks, ids)
    requires t.id !in tasks && InColumn(t, projectId, status) && t.position == |ids|
    ensures IsListing(tasks[t.id := t], projectId, status, ids + [t.id])
    ensures Dense(tasks[t.id := t], ids + [t.id])
  {
    var t2 := tasks[t.id := t];
    var ids2 := ids + [t.id];
    assert forall i :: 0 <= i < |ids| ==> ids2[i] == ids[i] && ids[i] != t.id;
    assert ids2[|ids|] == t.id;
    forall id | id in t2 && InColumn(t2[id], projectId, status) ensures id in ids2 {
      if id != t.id { assert id in ids; }
    }
  }

  // ---------------------------------------------------------------------
  // Listing a column

  /** Inserting a task after every task at or below its position, and before
      the first one above it, keeps a list ascending. */
  lemma InsertAscending(tasks: Tasks, ids: seq<string>, j: nat, x: string)
    requires Ascending(tasks, ids) && x in tasks && j <= |ids|
    requires forall i :: 0 <= i < j ==> tasks[ids[i]].position <= tasks[x].position
    requires j < |ids| ==> tasks[x].position < tasks[ids[j]].position
    ensures Ascending(tasks, InsertAt(ids, j, x))
  {
    var r := InsertAt(ids, j, x);
    forall a, b | 0 <= a < b < |r| ensures tasks[r[a]].position <= tasks[r[b]].position {
      if b < j {
        assert r[a] == ids[a] && r[b] == ids[b];
      } else if b == j {
        assert r[a] == ids[a];
      } else if a == j {
        assert r[b] == ids[b - 1];
        AscendingPair(tasks, ids, j, b - 1);
      } else if a < j {
        assert r[a] == ids[a] && r[b] == ids[b - 1];
        AscendingPair(tasks, ids, a, b - 1);
      } else {
        assert r[a] == ids[a - 1] && r[b] == ids[b - 1];
        AscendingPair(tasks, ids, a - 1, b - 1);
      }
    }
  }

  /** One step of building a listing: a column task not yet listed, inserted
      at its sorted place, keeps the list a duplicate-free ascending list of
      column tasks, now with the new task. */
  lemma InsertListed(tasks: Tasks, projectId: string, status: Status, ids: seq<string>, j: nat, x: string)
    requires x in tasks && InColumn(tasks[x], projectId, status) && x !in ids
    requires AllInColumn(tasks, projectId, status, ids) && NoDup(ids) && Ascending(tasks, ids)
    requires j <= |ids| && forall i :: 0 <= i < j ==> tasks[ids[i]].position <= tasks[x].position
    requires j < |ids| ==> tasks[x].position < tasks[ids[j]].position
    ensures var r := InsertAt(ids, j, x);
      AllInColumn(tasks, projectId, status, r) && NoDup(r) && Ascending(tasks, r)
      && forall y :: y in r <==> y in ids || y == x
  {
    InsertAscending(tasks, ids, j, x);
    InsertKeepsNoDup(ids, j, x);
    var r := InsertAt(ids, j, x);
    forall i | 0 <= i < |r| ensures r[i] == x || r[i] in ids {
      if i < j { assert r[i] == ids[i]; } else if i > j { assert r[i] == ids[i - 1]; }
    }
    forall y | y in ids ensures y in r {
      var k :| 0 <= k < |ids| && ids[k] == y;
      if k < j { assert r[k] == y; } else { assert r[k + 1] == y; }
    }
  }

  // ---------------------------------------------------------------------
  // Delete and the status-changing PATCH

  /** Deleting a task and reindexing its column: the deleted task is gone, its
      former column is dense in its old order, and no other column changes. */
  lemma DeleteProperties(tasks: Tasks, id: string, listing: seq<string>)
    requires id in tasks
    requires IsListing(tasks - {id}, tasks[id].projectId, tasks[id].status, listing)
    ensures var r := Renumber(tasks - {id}, listing);
      id !in r && r.Keys == tasks.Keys - {id} && Dense(r, listing)
      && (forall x :: x in r && !InColumn(tasks[x], tasks[id].projectId, tasks[id].status) ==> r[x] == tasks[x])
  {
    ReindexProperties(tasks - {id}, tasks[id].projectId, tasks[id].status, listing);
  }

  /** The status-changing PATCH: the patched task leaves its column for the end of
      the new one (after every task there), its former column is dense again,
      and no third column changes. */
  lemma StatusChangeProperties(tasks: Tasks, taskId: string, updated: Task, max: int, listing: seq<string>)
    requires taskId in tasks
    requires updated.projectId == tasks[taskId].projectId && updated.status != tasks[taskId].status
    requires IsMaxPosition(tasks, updated.projectId, updated.status, max) && updated.position == max + 1
    requires IsListing(tasks[taskId := updated], updated.projectId, tasks[taskId].status, listing)
    ensures var r := Renumber(tasks[taskId := updated], listing);
      var from := tasks[taskId].status;
      r[taskId] == updated && Dense(r, listing)
      && (forall id :: id in tasks && id != taskId && InColumn(r[id], updated.projectId, updated.status)
            ==> r[id].position < updated.position)
      && (forall id ::
            (id in tasks && id != taskId && !InColumn(tasks[id], updated.projectId, from))
            ==> r[id] == tasks[id])
  {
    var t1 := tasks[taskId := updated];
    var from := tasks[taskId].status;
    ReindexProperties(t1, updated.projectId, from, listing);
    forall i | 0 <= i < |listing| ensures listing[i] != taskId {
      assert InColumn(t1[listing[i]], updated.projectId, from);
    }
    var r := Renumber(t1, listing);
    forall id | id in tasks && id != taskId && InColumn(r[id], updated.projectId, updated.status)
      ensures r[id].position < updated.position
    {
      assert SameButPosition(r[id], t1[id]);
      assert r[id] == tasks[id];
    }
  }
}
