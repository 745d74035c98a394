/** The state of the to-do page: the draft typed into the input box and the
    ordered list of tasks, with the four handlers that change them. */
module TaskList {
  import opened Text

  /** A to-do item. Tasks have no identity of their own: the page addresses
      them by their position in the list. */
  datatype Task = Task(text: string, completed: bool)

  /** The task with its completion flag negated and its text kept. */
  function Flip(t: Task): (r: Task)
    ensures r.text == t.text && r.completed != t.completed
  {
    t.(completed := !t.completed)
  }

  // ---------------------------------------------------------------------------
  // toggleTaskCompletion: a map over the list that sees each element's position

  /** The map over `s`, whose first element sits at position `from` of the
      whole list: the element whose position equals `index` is flipped. */
  function ToggleFrom(s: seq<Task>, index: int, from: int): (r: seq<Task>)
    ensures |r| == |s|
  {
    if s == [] then []
    else [if from == index then Flip(s[0]) else s[0]] + ToggleFrom(s[1..], index, from + 1)
  }

  /** Element `j` of the map is flipped exactly when its position is `index`. */
  lemma {:induction false} ToggleFromAt(s: seq<Task>, index: int, from: int, j: int)
    requires 0 <= j < |s|
    ensures ToggleFrom(s, index, from)[j] == if from + j == index then Flip(s[j]) else s[j]
  {
    if j > 0 {
      ToggleFromAt(s[1..], index, from + 1, j - 1);
    }
  }

  /** The new list built by toggleTaskCompletion(index): for a position in the
      list, that task alone is flipped; for any other index (negative or too
      large) the list is unchanged. */
  function Toggle(s: seq<Task>, index: int): (r: seq<Task>)
    ensures 0 <= index < |s| ==> r == s[index := Flip(s[index])]
    ensures !(0 <= index < |s|) ==> r == s
  {
    ToggleFromAll(s, index);
    ToggleFrom(s, index, 0)
  }

  /** Every element of the map over the whole list, by position. */
  lemma ToggleFromAll(s: seq<Task>, index: int)
    ensures forall j :: 0 <= j < |s| ==>
      ToggleFrom(s, index, 0)[j] == if j == index then Flip(s[j]) else s[j]
  {
    forall j | 0 <= j < |s|
      ensures ToggleFrom(s, index, 0)[j] == if j == index then Flip(s[j]) else s[j]
    {
      ToggleFromAt(s, index, 0, j);
    }
  }

  /** Toggling the same position twice gives back the original list. */
  lemma ToggleInvolution(s: seq<Task>, i: int)
    ensures Toggle(Toggle(s, i), i) == s
  {
    if 0 <= i < |s| {
      assert Flip(Flip(s[i])) == s[i];
    }
  }

  // ---------------------------------------------------------------------------
  // deleteTask: a filter over the list that sees each element's position

  /** The filter over `s`, whose first element sits at position `from` of the
      whole list: the element whose position equals `index` is dropped. */
  function DeleteFrom<T>(s: seq<T>, index: int, from: int): (r: seq<T>)
    ensures |r| <= |s|
  {
    if s == [] then []
    else (if from == index then [] else [s[0]]) + DeleteFrom(s[1..], index, from + 1)
  }

  /** The filter drops the one element whose position is `index`, if any. */
  lemma {:induction false} DeleteFromSplit<T>(s: seq<T>, index: int, from: int)
    ensures DeleteFrom(s, index, from)
         == if from <= index < from + |s| then s[..index - from] + s[index - from + 1..] else s
  {
    if s != [] {
      DeleteFromSplit(s[1..], index, from + 1);
      if from < index < from + |s| {
        assert s[1..][..index - from - 1] == s[1..index - from];
        assert s[1..][index - from..] == s[index - from + 1..];
        assert [s[0]] + s[1..index - from] == s[..index - from];
      } else if index == from {
        assert s[1..] == s[index - from + 1..];
      } else {
        assert [s[0]] + s[1..] == s;
      }
    }
  }

  /** The new list built by deleteTask(index): for a position in the list, the
      tasks before it followed by the tasks after it; for any other index
      (negative or too large) the list is unchanged. */
  function Delete<T>(s: seq<T>, index: int): (r: seq<T>)
    ensures 0 <= index < |s| ==> r == s[..index] + s[index + 1..]
    ensures !(0 <= index < |s|) ==> r == s
  {
    DeleteFromSplit(s, index, 0);
    DeleteFrom(s, index, 0)
  }

  /** Deleting a position in range removes that element alone: the length
      drops by one, the prefix before it is kept, the suffix after it moves one
      place to the left, and one copy of it leaves the multiset of tasks. */
  lemma DeleteInRange<T>(s: seq<T>, i: int)
    requires 0 <= i < |s|
    ensures |Delete(s, i)| == |s| - 1
    ensures forall j :: 0 <= j < i ==> Delete(s, i)[j] == s[j]
    ensures forall j :: i <= j < |s| - 1 ==> Delete(s, i)[j] == s[j + 1]
    ensures multiset(Delete(s, i)) + multiset{s[i]} == multiset(s)
  {
    assert s == s[..i] + [s[i]] + s[i + 1..];
  }

  // ---------------------------------------------------------------------------
  // The ToDoApp component's state

  /** The two state cells of the page: `task` (here `draft`) and `tasks`. */
  class ToDoApp {
    var draft: string
    var tasks: seq<Task>

    /** No stored task has a blank text: addTask is the only way in and it
        refuses blank drafts. */
    ghost predicate Valid()
      reads this
    {
      forall k :: 0 <= k < |tasks| ==> !Blank(tasks[k].text)
    }

    /** The initial state: an empty draft and no tasks. */
    constructor ()
      ensures Valid()
      ensures draft == "" && tasks == []
    {
      draft := "";
      tasks := [];
    }

    /** The input's onChange: the draft becomes exactly what was typed. */
    method SetDraft(text: string)
      requires Valid()
      modifies this
      ensures Valid()
      ensures draft == text && tasks == old(tasks)
    {
      draft := text;
    }

    /** addTask: a draft that is not blank once trimmed is appended, untrimmed
        and not completed, at the end of the list, and the draft is cleared;
        a blank draft changes nothing. Either way the draft is blank afterwards,
        so a second addTask with no edit in between does nothing. */
    method AddTask()
      requires Valid()
      modifies this
      ensures Valid()
      ensures !Blank(old(draft)) ==> tasks == old(tasks) + [Task(old(draft), false)] && draft == ""
      ensures Blank(old(draft)) ==> tasks == old(tasks) && draft == old(draft)
      ensures Blank(draft)
    {
      TrimEmptyIffBlank(draft);
      if Trim(draft) != "" {
        tasks := tasks + [Task(draft, false)];
        draft := "";
      }
    }

    /** toggleTaskCompletion(index): flips the completion of the task at
        `index` and keeps everything else; an index outside the list is a no-op. */
    method ToggleTaskCompletion(index: int)
      requires Valid()
      modifies this
      ensures Valid()
      ensures tasks == Toggle(old(tasks), index) && draft == old(draft)
      ensures 0 <= index < |old(tasks)| ==> tasks == old(tasks)[index := Flip(old(tasks)[index])]
      ensures !(0 <= index < |old(tasks)|) ==> tasks == old(tasks)
    {
      tasks := Toggle(tasks, index);
    }

    /** deleteTask(index): removes the task at `index`, keeping the order of
        the others; an index outside the list is a no-op. */
    method DeleteTask(index: int)
      requires Valid()
      modifies this
      ensures Valid()
      ensures tasks == Delete(old(tasks), index) && draft == old(draft)
      ensures 0 <= index < |old(tasks)| ==> tasks == old(tasks)[..index] + old(tasks)[index + 1..]
      ensures !(0 <= index < |old(tasks)|) ==> tasks == old(tasks)
    {
      tasks := Delete(tasks, index);
    }
  }
}
