/** The earlier to-do list component, without delete buttons.  Its task type,
    text guard and toggle mapping are the same expressions as those of the
    component with delete buttons, so they are taken from that module. */
module TodoListBasic {
  import opened TodoList

  class TodoApp {
    var tasks: seq<Task>
    var text: string

    constructor ()
      ensures tasks == [] && text == ""
    {
      tasks := [];
      text := "";
    }

    /** Typing in the input box. */
    method SetText(value: string)
      modifies this
      ensures tasks == old(tasks) && text == value
    {
      text := value;
    }

    /** Adds the text as typed, untrimmed, and clears the box; blank text
        changes nothing. */
    method AddTask()
      modifies this
      ensures HasText(old(text)) ==> tasks == Appended(old(tasks), old(text)) && text == ""
      ensures !HasText(old(text)) ==> tasks == old(tasks) && text == old(text)
    {
      if Trim(text) != "" {
        tasks := Appended(tasks, text);
        text := "";
      }
    }

    method ToggleTask(index: int)
      modifies this
      ensures tasks == ToggledAt(old(tasks), index) && text == old(text)
    {
      tasks := ToggledAt(tasks, index);
    }
  }

  /** A click on a task and a second click on it leave the component as it
      was, as its test expects. */
  method ClickTwice(app: TodoApp, index: int)
    modifies app
    ensures app.tasks == old(app.tasks) && app.text == old(app.text)
  {
    app.ToggleTask(index);
    app.ToggleTask(index);
    ToggleTwiceRestores(old(app.tasks), index);
  }
}
