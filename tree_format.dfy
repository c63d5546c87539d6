/**
  Rendering of a task tree, after gokart/tree/task_info_formatter.py: the ASCII tree
  of make_tree_info (with its abbreviation of already-shown tasks) and the pre-order
  record list of make_tree_info_table_list (which lists each task id once).

  Both traversals thread a set of visited task ids. The methods update it as the
  source does and are proved against functions that return the new set with the
  output.
 */
module TaskTree {
  import opened Paths

  datatype RequiredTask = RequiredTask(name: string, uniqueId: string)

  /** A task's requirements as nested lists and dicts of required tasks; carried, not rendered. */
  datatype Requires =
    | One(task: RequiredTask)
    | ListOf(items: seq<Requires>)
    | DictOf(entries: seq<(string, Requires)>)

  /** Parameters and task log are kept as their rendered text. */
  datatype TaskInfo = TaskInfo(
    name: string,
    uniqueId: string,
    outputPaths: seq<string>,
    params: string,
    processingTime: string,
    isComplete: string,
    taskLog: string,
    requirements: Requires,
    children: seq<TaskInfo>)

  /** task_info_dict: every field but the children. */
  datatype TaskInfoRecord = TaskInfoRecord(
    name: string,
    uniqueId: string,
    outputPaths: seq<string>,
    params: string,
    processingTime: string,
    isComplete: string,
    taskLog: string,
    requirements: Requires)

  function TaskId(t: TaskInfo): (id: string)
    ensures |id| == |t.name| + 1 + |t.uniqueId|
    ensures StartsWith(id, t.name) && EndsWith(id, t.uniqueId) && id[|t.name|] == '_'
  {
    t.name + "_" + t.uniqueId
  }

  function TaskTitle(t: TaskInfo): (title: string)
    ensures |title| == |t.isComplete| + |t.name| + |t.uniqueId| + 5
    ensures StartsWith(title, "(" + t.isComplete + ") " + t.name + "[") && EndsWith(title, t.uniqueId + "]")
  {
    "(" + t.isComplete + ") " + t.name + "[" + t.uniqueId + "]"
  }

  /** Python's list repr of strings: every item in single quotes, without repr's escaping of the item text. */
  function ListRepr(items: seq<string>): string {
    "[" + QuotedJoin(items) + "]"
  }

  function QuotedJoin(items: seq<string>): string {
    if items == [] then ""
    else if |items| == 1 then "'" + items[0] + "'"
    else "'" + items[0] + "', " + QuotedJoin(items[1..])
  }

  function TaskDetail(t: TaskInfo): (detail: string)
    ensures StartsWith(detail, "(parameter=" + t.params + ", output=" + ListRepr(t.outputPaths))
    ensures EndsWith(detail, ", time=" + t.processingTime + ", task_log=" + t.taskLog + ")")
    ensures |detail| == |"(parameter=" + t.params + ", output=" + ListRepr(t.outputPaths)|
      + |", time=" + t.processingTime + ", task_log=" + t.taskLog + ")"|
  {
    "(parameter=" + t.params + ", output=" + ListRepr(t.outputPaths) + ", time=" + t.processingTime
      + ", task_log=" + t.taskLog + ")"
  }

  function Record(t: TaskInfo): TaskInfoRecord {
    TaskInfoRecord(t.name, t.uniqueId, t.outputPaths, t.params, t.processingTime, t.isComplete, t.taskLog, t.requirements)
  }

  function RecordId(r: TaskInfoRecord): string {
    r.name + "_" + r.uniqueId
  }

  // ---------------------------------------------------------------------------
  // make_tree_info

  function Branch(last: bool): string {
    if last then "└─-" else "|--"
  }

  function ChildIndent(indent: string, last: bool): string {
    indent + (if last then "   " else "|  ")
  }

  /** The first line of a task's entry: a new line, the indent, the branch and the title. */
  function Head(t: TaskInfo, indent: string, last: bool): string {
    "\n" + indent + Branch(last) + TaskTitle(t)
  }

  /** make_tree_info: the rendered subtree and the visited set afterwards. */
  function TreeInfo(t: TaskInfo, indent: string, last: bool, details: bool, abbr: bool, visited: set<string>): (r: (string, set<string>))
    decreases t, 1
    ensures StartsWith(r.0, Head(t, indent, last))
    ensures abbr && TaskId(t) in visited ==>
      r == (Head(t, indent, last) + "\n" + ChildIndent(indent, last) + "└─- ...", visited)
    ensures !(abbr && TaskId(t) in visited) ==>
      StartsWith(r.0, Head(t, indent, last) + (if details then TaskDetail(t) else ""))
  {
    var head := Head(t, indent, last);
    var indent' := ChildIndent(indent, last);
    if abbr && TaskId(t) in visited then
      (head + "\n" + indent' + "└─- ...", visited)
    else
      var visited' := if abbr then visited + {TaskId(t)} else visited;
      var body := head + (if details then TaskDetail(t) else "");
      var rest := ChildrenInfo(t, 0, indent', details, abbr, visited');
      assert (body + rest.0)[..|head|] == head;
      assert (body + rest.0)[..|body|] == body;
      (body + rest.0, rest.1)
  }

  /**
    The whole text of a task that is not abbreviated: the head, the detail exactly
    when details are requested, then the children indented one level deeper, with
    the task's own id already visited when abbreviating.
   */
  lemma TreeInfoText(t: TaskInfo, indent: string, last: bool, details: bool, abbr: bool, visited: set<string>)
    requires !(abbr && TaskId(t) in visited)
    ensures var children := ChildrenInfo(t, 0, ChildIndent(indent, last), details, abbr,
                                         if abbr then visited + {TaskId(t)} else visited);
      TreeInfo(t, indent, last, details, abbr, visited)
        == (Head(t, indent, last) + (if details then TaskDetail(t) else "") + children.0, children.1)
  {
  }

  /** The children of t from index i on, in list order; only the final child is rendered as last. */
  function ChildrenInfo(t: TaskInfo, i: nat, indent: string, details: bool, abbr: bool, visited: set<string>): (string, set<string>)
    decreases t, 0, |t.children| - i
  {
    if i >= |t.children| then ("", visited)
    else
      var first := TreeInfo(t.children[i], indent, i + 1 == |t.children|, details, abbr, visited);
      var rest := ChildrenInfo(t, i + 1, indent, details, abbr, first.1);
      (first.0 + rest.0, rest.1)
  }

  method MakeTreeInfo(t: TaskInfo, indent: string, last: bool, details: bool, abbr: bool, visited: set<string>)
    returns (result: string, visitedAfter: set<string>)
    decreases t, 1
    ensures result == TreeInfo(t, indent, last, details, abbr, visited).0
    ensures visitedAfter == TreeInfo(t, indent, last, details, abbr, visited).1
  {
    result := "\n" + indent;
    var indent' := indent;
    if last {
      result := result + "└─-";
      indent' := indent' + "   ";
    } else {
      result := result + "|--";
      indent' := indent' + "|  ";
    }
    result := result + TaskTitle(t);
    assert result == Head(t, indent, last) && indent' == ChildIndent(indent, last);
    visitedAfter := visited;
    if abbr {
      var taskId := TaskId(t);
      if taskId !in visitedAfter {
        visitedAfter := visitedAfter + {taskId};
      } else {
        result := result + "\n" + indent' + "└─- ...";
        return;
      }
    }
    if details {
      result := result + TaskDetail(t);
    }
    result, visitedAfter := AppendChildrenInfo(t, result, indent', details, abbr, visitedAfter);
  }

  /** The loop over the children in make_tree_info, appending each child's rendering to result. */
  method AppendChildrenInfo(t: TaskInfo, body: string, indent: string, details: bool, abbr: bool, visited: set<string>)
    returns (result: string, visitedAfter: set<string>)
    decreases t, 0
    ensures var whole := ChildrenInfo(t, 0, indent, details, abbr, visited);
      result == body + whole.0 && visitedAfter == whole.1
  {
    result := body;
    visitedAfter := visited;
    var children := t.children;
    ghost var whole := ChildrenInfo(t, 0, indent, details, abbr, visited);
    for index := 0 to |children|
      invariant result + ChildrenInfo(t, index, indent, details, abbr, visitedAfter).0 == body + whole.0
      invariant ChildrenInfo(t, index, indent, details, abbr, visitedAfter).1 == whole.1
    {
      var rendered, visitedNext := MakeTreeInfo(children[index], indent, index + 1 == |children|, details, abbr, visitedAfter);
      AppendStep(t, index, indent, details, abbr, visitedAfter, result, rendered, visitedNext);
      result := result + rendered;
      visitedAfter := visitedNext;
    }
  }

  /** One step of the loop over the children: appending child i's rendering keeps the loop invariant. */
  lemma AppendStep(t: TaskInfo, i: nat, indent: string, details: bool, abbr: bool, visited: set<string>,
                   result: string, rendered: string, visitedNext: set<string>)
    requires i < |t.children|
    requires rendered == TreeInfo(t.children[i], indent, i + 1 == |t.children|, details, abbr, visited).0
    requires visitedNext == TreeInfo(t.children[i], indent, i + 1 == |t.children|, details, abbr, visited).1
    ensures result + ChildrenInfo(t, i, indent, details, abbr, visited).0
         == (result + rendered) + ChildrenInfo(t, i + 1, indent, details, abbr, visitedNext).0
    ensures ChildrenInfo(t, i, indent, details, abbr, visited).1 == ChildrenInfo(t, i + 1, indent, details, abbr, visitedNext).1
  {
    var rest := ChildrenInfo(t, i + 1, indent, details, abbr, visitedNext);
    assert result + (rendered + rest.0) == (result + rendered) + rest.0;
  }

  /** Without abbreviation the visited set is never modified. */
  lemma {:induction false} NoAbbrKeepsVisited(t: TaskInfo, indent: string, last: bool, details: bool, visited: set<string>)
    ensures TreeInfo(t, indent, last, details, false, visited).1 == visited
    decreases t, 1
  {
    NoAbbrKeepsVisitedChildren(t, 0, ChildIndent(indent, last), details, visited);
  }

  lemma {:induction false} NoAbbrKeepsVisitedChildren(t: TaskInfo, i: nat, indent: string, details: bool, visited: set<string>)
    ensures ChildrenInfo(t, i, indent, details, false, visited).1 == visited
    decreases t, 0, |t.children| - i
  {
    if i < |t.children| {
      NoAbbrKeepsVisited(t.children[i], indent, i + 1 == |t.children|, details, visited);
      NoAbbrKeepsVisitedChildren(t, i + 1, indent, details, visited);
    }
  }

  // ---------------------------------------------------------------------------
  // make_tree_info_table_list

  /** make_tree_info_table_list: the pre-order records of the tasks not yet visited, and the visited set afterwards. */
  function TableList(t: TaskInfo, visited: set<string>): (r: (seq<TaskInfoRecord>, set<string>))
    decreases t, 1
    ensures TaskId(t) in visited ==> r == ([], visited)
    ensures TaskId(t) !in visited ==> |r.0| >= 1 && r.0[0] == Record(t)
  {
    if TaskId(t) in visited then ([], visited)
    else
      var rest := TableListChildren(t, 0, visited + {TaskId(t)});
      ([Record(t)] + rest.0, rest.1)
  }

  /** The lists of the children of t from index i on, concatenated in child order. */
  function TableListChildren(t: TaskInfo, i: nat, visited: set<string>): (seq<TaskInfoRecord>, set<string>)
    decreases t, 0, |t.children| - i
  {
    if i >= |t.children| then ([], visited)
    else
      var first := TableList(t.children[i], visited);
      var rest := TableListChildren(t, i + 1, first.1);
      (first.0 + rest.0, rest.1)
  }

  method MakeTreeInfoTableList(t: TaskInfo, visited: set<string>) returns (result: seq<TaskInfoRecord>, visitedAfter: set<string>)
    decreases t
    ensures result == TableList(t, visited).0 && visitedAfter == TableList(t, visited).1
  {
    var taskId := TaskId(t);
    if taskId in visited {
      return [], visited;
    }
    visitedAfter := visited + {taskId};
    result := [Record(t)];
    var children := t.children;
    ghost var whole := TableListChildren(t, 0, visitedAfter);
    for index := 0 to |children|
      invariant result + TableListChildren(t, index, visitedAfter).0 == [Record(t)] + whole.0
      invariant TableListChildren(t, index, visitedAfter).1 == whole.1
    {
      var listed, visitedNext := MakeTreeInfoTableList(children[index], visitedAfter);
      ghost var rest := TableListChildren(t, index + 1, visitedNext);
      assert result + (listed + rest.0) == (result + listed) + rest.0;
      result := result + listed;
      visitedAfter := visitedNext;
    }
    assert TableListChildren(t, |children|, visitedAfter) == ([], visitedAfter);
  }

  /** The ids of a list of records. */
  function Ids(rs: seq<TaskInfoRecord>): set<string> {
    set i | 0 <= i < |rs| :: RecordId(rs[i])
  }

  /** No task id appears twice in the list. */
  predicate DistinctIds(rs: seq<TaskInfoRecord>) {
    forall i, j :: 0 <= i < j < |rs| ==> RecordId(rs[i]) != RecordId(rs[j])
  }

  /**
    The list holds each task id at most once; every listed id was not visited on
    entry; and the visited set afterwards is the entry set plus the listed ids.
   */
  lemma {:induction false} TableListIds(t: TaskInfo, visited: set<string>)
    ensures var r := TableList(t, visited);
      && DistinctIds(r.0)
      && (forall i :: 0 <= i < |r.0| ==> RecordId(r.0[i]) !in visited)
      && r.1 == visited + Ids(r.0)
    decreases t, 1
  {
    if TaskId(t) !in visited {
      var v1 := visited + {TaskId(t)};
      TableListChildrenIds(t, 0, v1);
      var rest := TableListChildren(t, 0, v1);
      assert RecordId([Record(t)][0]) == TaskId(t);
      assert Ids([Record(t)]) == {TaskId(t)};
      ConcatIds([Record(t)], rest.0);
    }
  }

  lemma {:induction false} TableListChildrenIds(t: TaskInfo, i: nat, visited: set<string>)
    ensures var r := TableListChildren(t, i, visited);
      && DistinctIds(r.0)
      && (forall k :: 0 <= k < |r.0| ==> RecordId(r.0[k]) !in visited)
      && r.1 == visited + Ids(r.0)
    decreases t, 0, |t.children| - i
  {
    if i < |t.children| {
      var first := TableList(t.children[i], visited);
      TableListIds(t.children[i], visited);
      TableListChildrenIds(t, i + 1, first.1);
      var rest := TableListChildren(t, i + 1, first.1);
      ConcatIds(first.0, rest.0);
    } else {
      assert Ids([]) == {};
    }
  }

  /** Ids and distinctness of a concatenation whose second part avoids the first part's ids. */
  lemma ConcatIds(a: seq<TaskInfoRecord>, b: seq<TaskInfoRecord>)
    ensures Ids(a + b) == Ids(a) + Ids(b)
    ensures DistinctIds(a) && DistinctIds(b) && (forall k :: 0 <= k < |b| ==> RecordId(b[k]) !in Ids(a)) ==> DistinctIds(a + b)
  {
    var c := a + b;
    forall x | x in Ids(c) ensures x in Ids(a) + Ids(b) {
      var i :| 0 <= i < |c| && RecordId(c[i]) == x;
      if i < |a| {
        assert c[i] == a[i];
      } else {
        assert c[i] == b[i - |a|];
      }
    }
    forall x | x in Ids(a) + Ids(b) ensures x in Ids(c) {
      if x in Ids(a) {
        var i :| 0 <= i < |a| && RecordId(a[i]) == x;
        assert c[i] == a[i];
      } else {
        var i :| 0 <= i < |b| && RecordId(b[i]) == x;
        assert c[|a| + i] == b[i];
      }
    }
    if DistinctIds(a) && DistinctIds(b) && (forall k :: 0 <= k < |b| ==> RecordId(b[k]) !in Ids(a)) {
      forall i, j | 0 <= i < j < |c| ensures RecordId(c[i]) != RecordId(c[j]) {
        if j >= |a| && i < |a| {
          assert c[j] == b[j - |a|];
          assert RecordId(c[i]) in Ids(a);
        } else if i >= |a| {
          assert c[i] == b[i - |a|] && c[j] == b[j - |a|];
        }
      }
    }
  }

  /**
    With abbreviation, the tree rendering marks as visited exactly the tasks the
    table list would list: both traversals share one de-duplication.
   */
  lemma {:induction false} AbbrVisitsLikeTableList(t: TaskInfo, indent: string, last: bool, details: bool, visited: set<string>)
    ensures TreeInfo(t, indent, last, details, true, visited).1 == TableList(t, visited).1
    decreases t, 1
  {
    if TaskId(t) !in visited {
      AbbrVisitsLikeTableListChildren(t, 0, ChildIndent(indent, last), details, visited + {TaskId(t)});
    }
  }

  lemma {:induction false} AbbrVisitsLikeTableListChildren(t: TaskInfo, i: nat, indent: string, details: bool, visited: set<string>)
    ensures ChildrenInfo(t, i, indent, details, true, visited).1 == TableListChildren(t, i, visited).1
    decreases t, 0, |t.children| - i
  {
    if i < |t.children| {
      AbbrVisitsLikeTableList(t.children[i], indent, i + 1 == |t.children|, details, visited);
      var first := TableList(t.children[i], visited);
      AbbrVisitsLikeTableListChildren(t, i + 1, indent, details, first.1);
    }
  }

  /** Task ids determine name and unique id when names contain no underscore. */
  lemma TaskIdInjective(t1: TaskInfo, t2: TaskInfo)
    requires '_' !in t1.name && '_' !in t2.name
    requires TaskId(t1) == TaskId(t2)
    ensures t1.name == t2.name && t1.uniqueId == t2.uniqueId
  {
    var id := TaskId(t1);
    if |t1.name| == |t2.name| {
      assert t1.name == id[..|t1.name|] == t2.name;
      assert t1.uniqueId == id[|t1.name| + 1..] == t2.uniqueId;
    }
  }

  /** With underscores in names, different tasks can share an id, and the table list then shows only the first. */
  lemma SharedTaskId(t: TaskInfo, visited: set<string>)
    requires t.name == "A_B" && t.uniqueId == "c" && |t.children| == 1
    requires t.children[0].name == "A" && t.children[0].uniqueId == "B_c"
    requires TaskId(t) !in visited
    ensures TableList(t, visited).0 == [Record(t)]
  {
    assert TaskId(t.children[0]) == TaskId(t);
    var v1 := visited + {TaskId(t)};
    assert TableList(t.children[0], v1) == ([], v1);
    assert TableListChildren(t, 1, v1) == ([], v1);
    assert TableListChildren(t, 0, v1).0 == [];
  }
}
