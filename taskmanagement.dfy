/**
 * The kanban board of the task-management page: three columns of tasks,
 * drag-and-drop reordering and moving, adding a task with comma-separated
 * tags, deleting a task after confirmation, the search-and-tag filter
 * applied to a column, and the list of every tag on the board.
 */
module TaskManagement {
  import opened Wrappers
  import opened Text
  import opened Numbers
  import opened Seqs
  import TaskFilters

  datatype Task = Task(
    id: string, title: string, tags: seq<string>, createdAt: int,
    focusTime: int, lastFocusSession: Option<int>, isActive: bool)

  datatype ColumnId = Todo | InProgress | Done

  /** The `tasks` object: one list per column, in the order `todo`, `inprogress`, `done`. */
  datatype Board = Board(todo: seq<Task>, inprogress: seq<Task>, done: seq<Task>) {

    function Col(c: ColumnId): seq<Task> {
      match c
      case Todo => todo
      case InProgress => inprogress
      case Done => done
    }

    /** `{...tasks, [c]: s}`. */
    function WithCol(c: ColumnId, s: seq<Task>): (b: Board)
      ensures b.Col(c) == s
      ensures forall d :: d != c ==> b.Col(d) == Col(d)
    {
      match c
      case Todo => this.(todo := s)
      case InProgress => this.(inprogress := s)
      case Done => this.(done := s)
    }

    /** `Object.values(tasks).flat()`. */
    function AllTasks(): seq<Task> {
      todo + inprogress + done
    }
  }

  /** Replacing one column changes the multiset of all tasks by exactly what that column lost and gained. */
  lemma WithColMultiset(b: Board, c: ColumnId, s: seq<Task>)
    ensures multiset(b.WithCol(c, s).AllTasks()) + multiset(b.Col(c)) == multiset(b.AllTasks()) + multiset(s)
  {
  }

  /** `column.find(task => task.id === id)`: the first task with that id. */
  function Find(col: seq<Task>, id: string): (r: Option<Task>)
    ensures r.Some? ==> r.value in col && r.value.id == id
    ensures r.None? ==> forall i :: 0 <= i < |col| ==> col[i].id != id
    ensures r.Some? ==> exists i :: 0 <= i < |col| && col[i] == r.value && forall j :: 0 <= j < i ==> col[j].id != id
  {
    if col == [] then None
    else if col[0].id == id then Some(col[0])
    else
      var r := Find(col[1..], id);
      if r.Some? then
        var i :| 0 <= i < |col[1..]| && col[1..][i] == r.value && forall j :: 0 <= j < i ==> col[1..][j].id != id;
        assert col[i + 1] == r.value && forall j :: 0 <= j < i + 1 ==> col[j].id != id;
        r
      else r
  }

  /** Ids that name one task each in a column. */
  predicate UniqueIds(col: seq<Task>) {
    forall i, j :: 0 <= i < j < |col| ==> col[i].id != col[j].id
  }

  /** In a column of distinct ids, the task found by id is the task at its position. */
  lemma FindAtPosition(col: seq<Task>, i: nat)
    requires UniqueIds(col) && i < |col|
    ensures Find(col, col[i].id) == Some(col[i])
  {
  }

  datatype Location = Location(column: ColumnId, index: nat)
  datatype DragResult = DragResult(draggableId: string, source: Location, destination: Option<Location>)

  /** The library hands over a drag of a task rendered in the source column. */
  predicate DragFromColumn(b: Board, r: DragResult) {
    Find(b.Col(r.source.column), r.draggableId).Some?
  }

  /**
   * The board after a drag: unchanged without a destination or when dropped
   * where it started; otherwise the task at the source index leaves the
   * source column (as `splice(index, 1)` removes it) and the dragged task is
   * inserted at the destination index.
   */
  function Drag(b: Board, r: DragResult): Board
    requires DragFromColumn(b, r)
  {
    if r.destination.None? then b
    else
      var src, dst := r.source, r.destination.value;
      if dst.column == src.column && dst.index == src.index then b
      else
        var dragged := Find(b.Col(src.column), r.draggableId).value;
        if src.column == dst.column then
          b.WithCol(src.column, InsertAt(RemoveAt(b.Col(src.column), src.index), dst.index, dragged))
        else
          b.WithCol(src.column, RemoveAt(b.Col(src.column), src.index))
           .WithCol(dst.column, InsertAt(b.Col(dst.column), dst.index, dragged))
  }

  /** A drag without a destination, or back onto its own place, changes nothing. */
  lemma DragToNowhereOrSamePlace(b: Board, r: DragResult)
    requires DragFromColumn(b, r)
    requires r.destination.None? || r.destination.value == r.source
    ensures Drag(b, r) == b
  {
  }

  /** Within a column: the source index is removed, the dragged task inserted at the destination index; other columns stay. */
  lemma DragWithinColumn(b: Board, r: DragResult)
    requires DragFromColumn(b, r)
    requires r.destination.Some? && r.destination.value.column == r.source.column
    requires r.destination.value.index != r.source.index
    ensures var c, dragged := r.source.column, Find(b.Col(r.source.column), r.draggableId).value;
      Drag(b, r).Col(c) == InsertAt(RemoveAt(b.Col(c), r.source.index), r.destination.value.index, dragged)
    ensures forall d :: d != r.source.column ==> Drag(b, r).Col(d) == b.Col(d)
  {
  }

  /** Across columns: the source column loses one task, the destination gains the dragged one at the destination index; the third column stays. */
  lemma DragAcrossColumns(b: Board, r: DragResult)
    requires DragFromColumn(b, r)
    requires r.destination.Some? && r.destination.value.column != r.source.column
    requires r.source.index < |b.Col(r.source.column)|
    requires r.destination.value.index <= |b.Col(r.destination.value.column)|
    ensures var src, dst := r.source, r.destination.value;
      var after := Drag(b, r);
      |after.Col(src.column)| == |b.Col(src.column)| - 1
      && |after.Col(dst.column)| == |b.Col(dst.column)| + 1
      && after.Col(dst.column)[dst.index] == Find(b.Col(src.column), r.draggableId).value
      && forall d :: d != src.column && d != dst.column ==> after.Col(d) == b.Col(d)
  {
  }

  /** Moving the task at index `i` within column `c` keeps the board's tasks. */
  lemma MoveWithinKeepsTasks(b: Board, c: ColumnId, i: nat, j: nat)
    requires i < |b.Col(c)|
    ensures multiset(b.WithCol(c, InsertAt(RemoveAt(b.Col(c), i), j, b.Col(c)[i])).AllTasks()) == multiset(b.AllTasks())
  {
    var col := b.Col(c);
    var removed := RemoveAt(col, i);
    RemoveAtMultiset(col, i);
    InsertAtMultiset(removed, j, col[i]);
    WithColMultiset(b, c, InsertAt(removed, j, col[i]));
  }

  /** Moving the task at index `i` of column `c` into column `d` keeps the board's tasks. */
  lemma MoveAcrossKeepsTasks(b: Board, c: ColumnId, d: ColumnId, i: nat, j: nat)
    requires c != d && i < |b.Col(c)|
    ensures multiset(b.WithCol(c, RemoveAt(b.Col(c), i)).WithCol(d, InsertAt(b.Col(d), j, b.Col(c)[i])).AllTasks())
      == multiset(b.AllTasks())
  {
    var col := b.Col(c);
    var b1 := b.WithCol(c, RemoveAt(col, i));
    var b2 := b1.WithCol(d, InsertAt(b.Col(d), j, col[i]));
    RemoveAtMultiset(col, i);
    WithColMultiset(b, c, RemoveAt(col, i));
    assert b1.Col(d) == b.Col(d);
    InsertAtMultiset(b.Col(d), j, col[i]);
    WithColMultiset(b1, d, InsertAt(b.Col(d), j, col[i]));
    MoveBalance(multiset(b.AllTasks()), multiset(b1.AllTasks()), multiset(b2.AllTasks()),
      multiset(col), multiset(RemoveAt(col, i)), multiset(b.Col(d)), multiset(InsertAt(b.Col(d), j, col[i])), col[i]);
  }

  /** Taking `x` out of one column and putting it into another leaves the board's multiset as it was. */
  lemma MoveBalance(all0: multiset<Task>, all1: multiset<Task>, all2: multiset<Task>,
                    from: multiset<Task>, fromAfter: multiset<Task>, to: multiset<Task>, toAfter: multiset<Task>, x: Task)
    requires x in from && fromAfter == from - multiset{x} && all1 + from == all0 + fromAfter
    requires toAfter == to + multiset{x} && all2 + to == all1 + toAfter
    ensures all2 == all0
  {
    forall y ensures all2[y] == all0[y] {
      assert y == x ==> from[y] >= 1;
      assert from[y] == fromAfter[y] + multiset{x}[y];
      assert all1[y] + from[y] == all0[y] + fromAfter[y] by {
        assert (all1 + from)[y] == (all0 + fromAfter)[y];
      }
      assert all2[y] + to[y] == all1[y] + to[y] + multiset{x}[y] by {
        assert (all2 + to)[y] == (all1 + toAfter)[y];
      }
    }
  }

  /** When the task at the source index is the dragged task, a drag neither loses nor duplicates any task on the board. */
  lemma DragKeepsTasks(b: Board, r: DragResult)
    requires r.source.index < |b.Col(r.source.column)|
    requires Find(b.Col(r.source.column), r.draggableId) == Some(b.Col(r.source.column)[r.source.index])
    ensures multiset(Drag(b, r).AllTasks()) == multiset(b.AllTasks())
  {
    if r.destination.Some? && r.destination.value != r.source {
      var src, dst := r.source, r.destination.value;
      if src.column == dst.column {
        MoveWithinKeepsTasks(b, src.column, src.index, dst.index);
      } else {
        MoveAcrossKeepsTasks(b, src.column, dst.column, src.index, dst.index);
      }
    }
  }

  /** `text.split(',').map(tag => tag.trim()).filter(tag => tag)`. */
  function ParseTags(text: string): seq<string> {
    Filter(TrimAll(Split(text, ',')), NonEmpty())
  }

  function TrimAll(parts: seq<string>): (r: seq<string>)
    ensures |r| == |parts| && forall i :: 0 <= i < |parts| ==> r[i] == Trim(parts[i])
  {
    seq(|parts|, i requires 0 <= i < |parts| => Trim(parts[i]))
  }

  function NonEmpty(): string -> bool {
    t => t != []
  }

  /** A text piece already trimmed: it neither starts nor ends with white space. */
  predicate Trimmed(t: string) {
    t == [] || (!IsSpace(t[0]) && !IsSpace(t[|t| - 1]))
  }

  /** Trimming a piece without commas gives a trimmed text without commas. */
  lemma TrimmedPieceIsClean(p: string)
    requires ',' !in p
    ensures Trimmed(Trim(p)) && ',' !in Trim(p)
  {
    TrimEnds(p);
    TrimKeepsOut(p, ',');
  }

  /** Every parsed tag is non-empty, trimmed, free of commas, and is the trimmed form of one comma-separated piece of the text. */
  lemma ParsedTagsAreClean(text: string)
    ensures forall t :: t in ParseTags(text) ==>
      t != [] && Trimmed(t) && ',' !in t && t in TrimAll(Split(text, ','))
  {
    var parts := Split(text, ',');
    var trimmed := TrimAll(parts);
    FilterMembers(trimmed, NonEmpty());
    forall t | t in ParseTags(text)
      ensures t != [] && Trimmed(t) && ',' !in t && t in trimmed
    {
      var i :| 0 <= i < |trimmed| && trimmed[i] == t;
      TrimmedPieceIsClean(parts[i]);
    }
  }

  /** Joining clean tags with commas and parsing the text gives back the tags. */
  lemma ParseTagsOfJoin(tags: seq<string>)
    requires |tags| >= 1
    requires forall i :: 0 <= i < |tags| ==> tags[i] != [] && Trimmed(tags[i]) && ',' !in tags[i]
    ensures ParseTags(Join(tags, ',')) == tags
  {
    SplitJoin(tags, ',');
    forall i | 0 <= i < |tags| ensures Trim(tags[i]) == tags[i] {
      TrimOfTrimmed(tags[i]);
    }
    assert TrimAll(tags) == tags;
    FilterAllPass(tags, NonEmpty());
  }

  /** Trimming a trimmed text changes nothing. */
  lemma TrimOfTrimmed(t: string)
    requires Trimmed(t)
    ensures Trim(t) == t
  {
    if t != [] {
      assert TrimStart(t) == t;
    }
  }

  /** The task `handleAddTask` builds. */
  function NewTask(now: int, title: string, tagsText: string): (t: Task)
    ensures t.id == "task-" + IntToString(now) && t.title == title && t.createdAt == now
    ensures t.tags == ParseTags(tagsText) && t.focusTime == 0 && t.lastFocusSession == None && !t.isActive
  {
    Task("task-" + IntToString(now), title, ParseTags(tagsText), now, 0, None, false)
  }

  /** The test `task.id !== id` of a delete. */
  function IdIsNot(id: string): Task -> bool {
    (t: Task) => t.id != id
  }

  /** A column without the tasks of that id. */
  function Without(col: seq<Task>, id: string): seq<Task> {
    Filter(col, IdIsNot(id))
  }

  /** Deleting removes exactly the tasks with that id, keeps every other task in order, and changes nothing when no task has the id. */
  lemma WithoutRemovesExactly(col: seq<Task>, id: string)
    ensures forall t :: t in Without(col, id) <==> t in col && t.id != id
    ensures IsSubsequence(Without(col, id), col)
    ensures (forall i :: 0 <= i < |col| ==> col[i].id != id) ==> Without(col, id) == col
  {
    FilterMembers(col, IdIsNot(id));
    FilterIsSubsequence(col, IdIsNot(id));
    if forall i :: 0 <= i < |col| ==> col[i].id != id {
      FilterAllPass(col, IdIsNot(id));
    }
  }

  /** Some tag of the task contains the lower-cased query. */
  predicate SomeTagMatches(tags: seq<string>, lowerQuery: string) {
    exists i :: 0 <= i < |tags| && Includes(ToLower(tags[i]), lowerQuery)
  }

  /** Some selected tag is among the task's tags. */
  predicate SomeSelectedTag(selected: seq<string>, tags: seq<string>) {
    exists i :: 0 <= i < |selected| && selected[i] in tags
  }

  /** The search matches the title or a tag, case-insensitively, and the task has one of the selected tags when any is selected. */
  predicate Matches(t: Task, query: string, selected: seq<string>) {
    var q := ToLower(query);
    (Includes(ToLower(t.title), q) || SomeTagMatches(t.tags, q))
    && (|selected| == 0 || SomeSelectedTag(selected, t.tags))
  }

  function MatchesFilter(query: string, selected: seq<string>): Task -> bool {
    (t: Task) => Matches(t, query, selected)
  }

  /** `getFilteredTasks(column)`. */
  function FilteredTasks(col: seq<Task>, query: string, selected: seq<string>): seq<Task> {
    Filter(col, MatchesFilter(query, selected))
  }

  /** The filtered column holds exactly the matching tasks, in the column's order. */
  lemma FilteredTasksAreMatches(col: seq<Task>, query: string, selected: seq<string>)
    ensures forall t :: t in FilteredTasks(col, query, selected) <==> t in col && Matches(t, query, selected)
    ensures IsSubsequence(FilteredTasks(col, query, selected), col)
  {
    FilterMembers(col, MatchesFilter(query, selected));
    FilterIsSubsequence(col, MatchesFilter(query, selected));
  }

  /** With the filters cleared, the column is shown whole. */
  lemma NoFilterShowsAll(col: seq<Task>)
    ensures var f := TaskFilters.ClearAllFilters(); FilteredTasks(col, f.query, f.tags) == col
  {
    forall i | 0 <= i < |col| ensures Matches(col[i], "", []) {
      assert ToLower("") == "";
      IncludesEmpty(ToLower(col[i].title));
    }
    FilterAllPass(col, MatchesFilter("", []));
  }

  /** Every tag of the tasks, in order, duplicates included. */
  function FlatTags(ts: seq<Task>): seq<string> {
    if ts == [] then [] else FlatTags(ts[..|ts| - 1]) + ts[|ts| - 1].tags
  }

  /** The tags of the first `i + 1` tasks are those of the first `i` followed by the next task's. */
  lemma FlatTagsStep(ts: seq<Task>, i: nat)
    requires i < |ts|
    ensures FlatTags(ts[..i + 1]) == FlatTags(ts[..i]) + ts[i].tags
  {
    assert ts[..i + 1][..i] == ts[..i];
  }

  /** A tag is among the flattened tags exactly when some task carries it. */
  lemma {:induction false} FlatTagsMembers(ts: seq<Task>)
    ensures forall x :: x in FlatTags(ts) <==> exists i :: 0 <= i < |ts| && x in ts[i].tags
  {
    if ts != [] {
      FlatTagsMembers(ts[..|ts| - 1]);
      var init := ts[..|ts| - 1];
      forall x ensures x in FlatTags(ts) <==> exists i :: 0 <= i < |ts| && x in ts[i].tags {
        if x in FlatTags(init) {
          var i :| 0 <= i < |init| && x in init[i].tags;
          assert ts[i] == init[i];
        }
        if exists i :: 0 <= i < |ts| && x in ts[i].tags {
          var i :| 0 <= i < |ts| && x in ts[i].tags;
          if i < |ts| - 1 {
            assert init[i] == ts[i];
          }
        }
      }
    }
  }

  /** The tag list holds every tag on the board exactly once. */
  lemma AllTagsOnce(b: Board)
    ensures var tags := AddAll([], FlatTags(b.AllTasks()));
      NoDuplicates(tags)
      && forall x :: x in tags <==> exists i :: 0 <= i < |b.AllTasks()| && x in b.AllTasks()[i].tags
  {
    AddAllMembers([], FlatTags(b.AllTasks()));
    AddAllNoDuplicates([], FlatTags(b.AllTasks()));
    FlatTagsMembers(b.AllTasks());
  }

  datatype PendingDelete = PendingDelete(taskId: string, columnId: ColumnId)

  /** The state of the task-management page. */
  class TaskBoard {
    var board: Board
    var selectedColumn: ColumnId
    var taskToDelete: Option<PendingDelete>
    var showDeleteModal: bool
    var showAddTaskModal: bool
    var searchQuery: string
    var selectedTags: seq<string>

    constructor (initial: Board)
      ensures board == initial && selectedColumn == Todo && taskToDelete == None
      ensures !showDeleteModal && !showAddTaskModal && searchQuery == "" && selectedTags == []
    {
      board := initial;
      selectedColumn := Todo;
      taskToDelete := None;
      showDeleteModal := false;
      showAddTaskModal := false;
      searchQuery := "";
      selectedTags := [];
    }

    /** `handleDragEnd`: the lists of the touched columns are copied, spliced, and put back. */
    method DragEnd(result: DragResult)
      requires DragFromColumn(board, result)
      modifies this
      ensures board == Drag(old(board), result)
      ensures result.source.index < |old(board).Col(result.source.column)|
        && Find(old(board).Col(result.source.column), result.draggableId)
           == Some(old(board).Col(result.source.column)[result.source.index])
        ==> multiset(board.AllTasks()) == multiset(old(board).AllTasks())
      ensures selectedColumn == old(selectedColumn) && taskToDelete == old(taskToDelete)
      ensures showDeleteModal == old(showDeleteModal) && showAddTaskModal == old(showAddTaskModal)
      ensures searchQuery == old(searchQuery) && selectedTags == old(selectedTags)
    {
      if result.source.index < |board.Col(result.source.column)|
        && Find(board.Col(result.source.column), result.draggableId)
           == Some(board.Col(result.source.column)[result.source.index]) {
        DragKeepsTasks(board, result);
      }
      if result.destination.None? {
        return;
      }
      var src, dst := result.source, result.destination.value;
      if dst.column == src.column && dst.index == src.index {
        return;
      }
      var sourceColumn := board.Col(src.column);
      var destColumn := board.Col(dst.column);
      var draggedTask := Find(sourceColumn, result.draggableId).value;
      if src.column == dst.column {
        var newTasks := RemoveAt(sourceColumn, src.index);
        newTasks := InsertAt(newTasks, dst.index, draggedTask);
        board := board.WithCol(src.column, newTasks);
      } else {
        var sourceTasks := RemoveAt(sourceColumn, src.index);
        var destTasks := InsertAt(destColumn, dst.index, draggedTask);
        board := board.WithCol(src.column, sourceTasks).WithCol(dst.column, destTasks);
      }
    }

    /** A column's add button: that column becomes the target and the add dialog opens. */
    method OpenAddTask(column: ColumnId)
      modifies this
      ensures selectedColumn == column && showAddTaskModal
      ensures board == old(board) && taskToDelete == old(taskToDelete) && showDeleteModal == old(showDeleteModal)
      ensures searchQuery == old(searchQuery) && selectedTags == old(selectedTags)
    {
      selectedColumn := column;
      showAddTaskModal := true;
    }

    /** Closing the add dialog without adding. */
    method CloseAddTask()
      modifies this
      ensures !showAddTaskModal
      ensures board == old(board) && selectedColumn == old(selectedColumn)
      ensures taskToDelete == old(taskToDelete) && showDeleteModal == old(showDeleteModal)
      ensures searchQuery == old(searchQuery) && selectedTags == old(selectedTags)
    {
      showAddTaskModal := false;
    }

    /** `handleAddTask`: a new task at the end of the selected column; the add dialog closes. */
    method AddTask(now: int, title: string, tagsText: string)
      modifies this
      ensures board.Col(old(selectedColumn)) == old(board).Col(old(selectedColumn)) + [NewTask(now, title, tagsText)]
      ensures forall c :: c != old(selectedColumn) ==> board.Col(c) == old(board).Col(c)
      ensures !showAddTaskModal
      ensures selectedColumn == old(selectedColumn) && taskToDelete == old(taskToDelete)
      ensures showDeleteModal == old(showDeleteModal)
      ensures searchQuery == old(searchQuery) && selectedTags == old(selectedTags)
    {
      var newTask := NewTask(now, title, tagsText);
      var column := board.Col(selectedColumn) + [newTask];
      var after := board.WithCol(selectedColumn, column);
      assert after.Col(selectedColumn) == column;
      assert forall c :: c != selectedColumn ==> after.Col(c) == board.Col(c);
      board := after;
      showAddTaskModal := false;
    }

    /** `handleDeleteTask`: remembers what to delete and opens the confirmation. */
    method HandleDeleteTask(taskId: string, columnId: ColumnId)
      modifies this
      ensures taskToDelete == Some(PendingDelete(taskId, columnId)) && showDeleteModal
      ensures board == old(board) && selectedColumn == old(selectedColumn)
      ensures showAddTaskModal == old(showAddTaskModal)
      ensures searchQuery == old(searchQuery) && selectedTags == old(selectedTags)
    {
      taskToDelete := Some(PendingDelete(taskId, columnId));
      showDeleteModal := true;
    }

    /** `confirmDeleteTask`: the pending delete, if any, filters its column by id; the confirmation closes either way. */
    method ConfirmDelete()
      modifies this
      ensures old(taskToDelete).None? ==> board == old(board)
      ensures old(taskToDelete).Some? ==> (
        var p := old(taskToDelete).value;
        board == old(board).WithCol(p.columnId, Without(old(board).Col(p.columnId), p.taskId)))
      ensures taskToDelete == None && !showDeleteModal
      ensures selectedColumn == old(selectedColumn) && showAddTaskModal == old(showAddTaskModal)
      ensures searchQuery == old(searchQuery) && selectedTags == old(selectedTags)
    {
      if taskToDelete.Some? {
        var p := taskToDelete.value;
        board := board.WithCol(p.columnId, Without(board.Col(p.columnId), p.taskId));
      }
      showDeleteModal := false;
      taskToDelete := None;
    }

    /** Closing the confirmation without deleting: the pending delete is kept. */
    method CancelDelete()
      modifies this
      ensures !showDeleteModal
      ensures board == old(board) && taskToDelete == old(taskToDelete) && selectedColumn == old(selectedColumn)
      ensures showAddTaskModal == old(showAddTaskModal)
      ensures searchQuery == old(searchQuery) && selectedTags == old(selectedTags)
    {
      showDeleteModal := false;
    }

    /** Typing in the search box (or its clear button, with the empty text). */
    method SearchChange(query: string)
      modifies this
      ensures searchQuery == query
      ensures board == old(board) && selectedColumn == old(selectedColumn) && selectedTags == old(selectedTags)
      ensures taskToDelete == old(taskToDelete) && showDeleteModal == old(showDeleteModal)
      ensures showAddTaskModal == old(showAddTaskModal)
    {
      searchQuery := query;
    }

    /** The filter bar's tag toggle, fed back into the selection. */
    method ToggleTag(tag: string)
      modifies this
      ensures selectedTags == TaskFilters.ToggleTag(old(selectedTags), tag)
      ensures board == old(board) && searchQuery == old(searchQuery) && selectedColumn == old(selectedColumn)
      ensures taskToDelete == old(taskToDelete) && showDeleteModal == old(showDeleteModal)
      ensures showAddTaskModal == old(showAddTaskModal)
    {
      selectedTags := TaskFilters.ToggleTag(selectedTags, tag);
    }

    /** The filter bar's clear button. */
    method ClearFilters()
      modifies this
      ensures searchQuery == "" && selectedTags == []
      ensures board == old(board) && selectedColumn == old(selectedColumn)
      ensures taskToDelete == old(taskToDelete) && showDeleteModal == old(showDeleteModal)
      ensures showAddTaskModal == old(showAddTaskModal)
    {
      var f := TaskFilters.ClearAllFilters();
      searchQuery := f.query;
      selectedTags := f.tags;
    }

    /** `getAllTags`: every task's tags, in board order, added to a set that keeps first-seen order. */
    method GetAllTags() returns (tags: seq<string>)
      ensures tags == AddAll([], FlatTags(board.AllTasks()))
      ensures NoDuplicates(tags)
      ensures forall x :: x in tags <==> exists i :: 0 <= i < |board.AllTasks()| && x in board.AllTasks()[i].tags
    {
      var all := board.AllTasks();
      tags := [];
      var i := 0;
      while i < |all|
        invariant 0 <= i <= |all|
        invariant tags == AddAll([], FlatTags(all[..i]))
      {
        var taskTags := all[i].tags;
        ghost var before := tags;
        var j := 0;
        while j < |taskTags|
          invariant 0 <= j <= |taskTags|
          invariant tags == AddAll(before, taskTags[..j])
        {
          AddAllStep(before, taskTags[..j], taskTags[j]);
          assert taskTags[..j + 1] == taskTags[..j] + [taskTags[j]];
          if taskTags[j] !in tags {
            tags := tags + [taskTags[j]];
          }
          j := j + 1;
        }
        assert taskTags[..j] == taskTags;
        FlatTagsStep(all, i);
        AddAllConcat([], FlatTags(all[..i]), taskTags);
        i := i + 1;
      }
      assert all[..i] == all;
      AllTagsOnce(board);
    }
  }
}
