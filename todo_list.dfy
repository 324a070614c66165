/** The to-do list component with delete buttons: a list of tasks addressed
    by position and the text of the input box, two state cells that the
    handlers update. */
module TodoList {

  datatype Task = Task(text: string, done: bool)

  function Flip(t: Task): Task {
    t.(done := !t.done)
  }

  /** The characters the host's string trimming removes: the white space and
      line terminator characters of ECMAScript (section 12.2 and 12.3 of
      ECMA-262), the space separators of Unicode included. */
  predicate IsTrimmable(c: char) {
    c == '\t' || c == '\n' || c == '\U{000B}' || c == '\U{000C}' || c == '\r' || c == ' ' ||
    c == '\U{00A0}' || c == '\U{1680}' || ('\U{2000}' <= c <= '\U{200A}') ||
    c == '\U{2028}' || c == '\U{2029}' || c == '\U{202F}' || c == '\U{205F}' ||
    c == '\U{3000}' || c == '\U{FEFF}'
  }

  /** `s` without its leading trimmable characters. */
  function TrimStart(s: string): (r: string)
    ensures |r| <= |s| && r == s[|s| - |r|..]
    ensures forall i :: 0 <= i < |s| - |r| ==> IsTrimmable(s[i])
    ensures r != [] ==> !IsTrimmable(r[0])
  {
    if s != [] && IsTrimmable(s[0]) then TrimStart(s[1..]) else s
  }

  /** `s` without its trailing trimmable characters. */
  function TrimEnd(s: string): (r: string)
    ensures |r| <= |s| && r == s[..|r|]
    ensures forall i :: |r| <= i < |s| ==> IsTrimmable(s[i])
    ensures r != [] ==> !IsTrimmable(r[|r| - 1])
  {
    if s != [] && IsTrimmable(s[|s| - 1]) then TrimEnd(s[..|s| - 1]) else s
  }

  /** `r` occurs in `s` at offset `i`, and everything around it is trimmable. */
  predicate SurroundedByTrimmable(r: string, s: string, i: int) {
    0 <= i && i + |r| <= |s| && r == s[i..i + |r|] &&
    (forall k :: 0 <= k < i ==> IsTrimmable(s[k])) &&
    (forall k :: i + |r| <= k < |s| ==> IsTrimmable(s[k]))
  }

  /** The host's `trim`: a contiguous part of `s` that neither starts nor
      ends with a trimmable character, everything around it trimmable. */
  function Trim(s: string): (r: string)
    ensures exists i :: SurroundedByTrimmable(r, s, i)
    ensures r != [] ==> !IsTrimmable(r[0]) && !IsTrimmable(r[|r| - 1])
  {
    var u := TrimStart(s);
    var r := TrimEnd(u);
    var i := |s| - |u|;
    assert r == s[i..i + |r|];
    assert forall k :: i + |r| <= k < |s| ==> s[k] == u[k - i];
    assert SurroundedByTrimmable(r, s, i);
    r
  }

  /** Text is accepted as a task when something is left after trimming,
      that is when it holds a character that is not trimmable. */
  predicate HasText(s: string)
    ensures HasText(s) <==> exists i :: 0 <= i < |s| && !IsTrimmable(s[i])
  {
    TrimEmptyIffBlank(s);
    Trim(s) != ""
  }

  /** Trimming leaves nothing exactly when every character is trimmable. */
  lemma TrimEmptyIffBlank(s: string)
    ensures Trim(s) == "" <==> forall i :: 0 <= i < |s| ==> IsTrimmable(s[i])
  {
  }

  /** The list after `setTasks([...tasks, {text, done: false}])`. */
  function Appended(tasks: seq<Task>, text: string): (r: seq<Task>)
    ensures |r| == |tasks| + 1 && r[..|tasks|] == tasks && r[|tasks|] == Task(text, false)
  {
    tasks + [Task(text, false)]
  }

  /** `toggleTask(index)`: the mapping over the list that flips the task whose
      position equals `index`. */
  function ToggledAt(tasks: seq<Task>, index: int): (r: seq<Task>)
    ensures |r| == |tasks|
    ensures forall i :: 0 <= i < |tasks| ==> r[i] == if i == index then Flip(tasks[i]) else tasks[i]
  {
    if tasks == [] then []
    else [if index == 0 then Flip(tasks[0]) else tasks[0]] + ToggledAt(tasks[1..], index - 1)
  }

  /** `eliminar(index)`: the filter that keeps the tasks whose position differs
      from `index`. */
  function RemovedAt(tasks: seq<Task>, index: int): (r: seq<Task>)
    ensures 0 <= index < |tasks| ==> r == tasks[..index] + tasks[index + 1..]
    ensures !(0 <= index < |tasks|) ==> r == tasks
  {
    if tasks == [] then []
    else
      var rest := RemovedAt(tasks[1..], index - 1);
      assert tasks == [tasks[0]] + tasks[1..];
      if index == 0 then rest else [tasks[0]] + rest
  }

  /** Toggling a position that holds a task is an update of that one task;
      any other index leaves the list as it is. */
  lemma {:induction false} ToggledAtIsUpdate(tasks: seq<Task>, index: int)
    ensures 0 <= index < |tasks| ==> ToggledAt(tasks, index) == tasks[index := Flip(tasks[index])]
    ensures !(0 <= index < |tasks|) ==> ToggledAt(tasks, index) == tasks
  {
    var r := ToggledAt(tasks, index);
    if 0 <= index < |tasks| {
      var u := tasks[index := Flip(tasks[index])];
      assert |r| == |u|;
      forall i | 0 <= i < |tasks| ensures r[i] == u[i] {
      }
    } else {
      forall i | 0 <= i < |tasks| ensures r[i] == tasks[i] {
      }
    }
  }

  /** Toggling the same position twice restores the list. */
  lemma ToggleTwiceRestores(tasks: seq<Task>, index: int)
    ensures ToggledAt(ToggledAt(tasks, index), index) == tasks
  {
  }

  /** Removal shortens the list by one exactly when the index is a position. */
  lemma RemovedAtLength(tasks: seq<Task>, index: int)
    ensures |RemovedAt(tasks, index)| == if 0 <= index < |tasks| then |tasks| - 1 else |tasks|
  {
  }

  /** Deleting the task just added, at the last position, undoes the addition. */
  lemma RemoveUndoesAppend(tasks: seq<Task>, text: string)
    ensures RemovedAt(Appended(tasks, text), |tasks|) == tasks
  {
    assert Appended(tasks, text)[..|tasks|] == tasks;
  }

  /** The component's two state cells and its handlers. */
  class TodoApp {
    var tasks: seq<Task>
    var text: string

    constructor ()
      ensures tasks == [] && text == ""
    {
      tasks := [];
      text := "";
    }

    /** Typing in the input box. */
    method SetText(value: string)
      modifies this
      ensures tasks == old(tasks) && text == value
    {
      text := value;
    }

    /** Adds the text as typed, untrimmed, and clears the box; blank text
        changes nothing. */
    method AddTask()
      modifies this
      ensures HasText(old(text)) ==> tasks == Appended(old(tasks), old(text)) && text == ""
      ensures !HasText(old(text)) ==> tasks == old(tasks) && text == old(text)
    {
      if Trim(text) != "" {
        tasks := Appended(tasks, text);
        text := "";
      }
    }

    method ToggleTask(index: int)
      modifies this
      ensures tasks == ToggledAt(old(tasks), index) && text == old(text)
    {
      tasks := ToggledAt(tasks, index);
    }

    method Eliminar(index: int)
      modifies this
      ensures tasks == RemovedAt(old(tasks), index) && text == old(text)
    {
      tasks := RemovedAt(tasks, index);
    }
  }
}
