# Simple-Todos task list, modelled in Dafny

The page `src/app/page.tsx` is a single React component, `ToDoApp`, that keeps
two pieces of state: the draft typed into the input box (`task`) and the
ordered list of tasks (`tasks`, each a `{text, completed}` record). Four
handlers change that state: the input's `onChange` overwrites the draft,
`addTask` appends the draft as a new incomplete task when it is not blank once
trimmed and then clears the draft, `toggleTaskCompletion(index)` flips the
completion of the task at a position, and `deleteTask(index)` removes the task
at a position. Tasks have no identity beyond their position.

The model has two modules:

- `Text` (Text.dfy): whitespace, blank strings and `String.prototype.trim`
  (leading and trailing trim as two recursive functions). The only use of the
  trimmed string is the emptiness test, and `TrimEmptyIffBlank` proves that
  the trimmed draft is empty exactly when every character of the draft is
  whitespace.
- `TaskList` (TaskList.dfy): the `Task` datatype, the pure list builders
  `Toggle` and `Delete`, and the class `ToDoApp` with fields `draft` and
  `tasks`. Each handler is a method that assigns the new values.
  - `Toggle` models the source's position-aware `map`.
  - `Delete` models its position-aware `filter`.
  - Both walk the list and carry the position of the current element. Their
    contracts relate them to reference definitions: a sequence update, and the
    slices before and after the deleted position.
  - The class invariant `Valid()` says that no stored task has a blank text.
    The constructor establishes it and every handler keeps it.

Indices are `int`, so negative and too-large positions are part of the
contracts. Both are no-ops.

## Model

| member | source | states |
|---|---|---|
| `Text.IsWhitespace` | src/app/page.tsx:20 | the characters `trim()` strips (ECMAScript WhiteSpace and LineTerminator); every one of them lies in the Basic Multilingual Plane |
| `Text.TrimStart` | src/app/page.tsx:20 | the leading-whitespace trim returns a suffix of the draft that is empty or starts with a non-whitespace character, and everything it dropped is whitespace |
| `Text.TrimEnd` | src/app/page.tsx:20 | the trailing-whitespace trim returns a prefix of the draft that is empty or ends with a non-whitespace character, and everything it dropped is whitespace |
| `Text.Trim` | src/app/page.tsx:20 | `trim()` returns a contiguous piece of the draft such that everything cut off before and after it is whitespace and, when not empty, it starts and ends with a non-whitespace character |
| `Text.TrimEmptyIffBlank` | src/app/page.tsx:20 | `task.trim() !== ""` holds exactly when the draft is not all whitespace (both directions) |
| `Text.BlankExamples` | src/app/page.tsx:20 | a draft of three spaces trims to empty; "Buy milk" does not |
| `TaskList.Flip` | src/app/page.tsx:31 | the spread `{...t, completed: !t.completed}` keeps the text and negates the completion |
| `TaskList.ToggleFrom` | src/app/page.tsx:30-31 | the position-aware map keeps the length of the list |
| `TaskList.ToggleFromAt` | src/app/page.tsx:30-31 | the element at position j of the mapped list is flipped exactly when j equals the index, and is otherwise the original element |
| `TaskList.ToggleFromAll` | src/app/page.tsx:30-31 | over the whole list, each element of the map is flipped exactly when its position equals the index |
| `TaskList.Toggle` | src/app/page.tsx:29-33 | the list set by toggleTaskCompletion: for an index inside the list, the old list with only that task flipped (text kept, completion negated); for a negative or too-large index, the list unchanged |
| `TaskList.ToggleInvolution` | src/app/page.tsx:30-31 | toggling the same index twice restores the original list, for every index |
| `TaskList.DeleteFrom` | src/app/page.tsx:39 | the position-aware filter never lengthens the list |
| `TaskList.DeleteFromSplit` | src/app/page.tsx:39 | filtering out one position gives the slice before it followed by the slice after it, or the list unchanged when the position is outside it |
| `TaskList.Delete` | src/app/page.tsx:39 | the list set by deleteTask: for an index inside the list, the tasks before it followed by the tasks after it; for a negative or too-large index, the list unchanged |
| `TaskList.DeleteInRange` | src/app/page.tsx:37-39 | for an index inside the list: the length drops by one, the prefix is kept, the suffix shifts left by one, and exactly one copy of the deleted task leaves the multiset of tasks |
| `TaskList.ToDoApp.constructor` | src/app/page.tsx:13-16 | the component starts with an empty draft and no tasks, and the no-blank-text invariant holds |
| `TaskList.ToDoApp.SetDraft` | src/app/page.tsx:58 | the draft becomes exactly the typed text, and the tasks are untouched |
| `TaskList.ToDoApp.AddTask` | src/app/page.tsx:19-25 | a draft that is not blank is appended at the end as an untrimmed, incomplete task, with earlier tasks unchanged, and the draft becomes ""; a blank draft leaves both tasks and draft unchanged; afterwards the draft is always blank, so a repeated addTask with no edit in between is a no-op; the invariant is kept |
| `TaskList.ToDoApp.ToggleTaskCompletion` | src/app/page.tsx:28-34 | the tasks become the toggle of the old list: only the task at the index is flipped, an out-of-range index is a no-op, and the draft and the invariant are kept |
| `TaskList.ToDoApp.DeleteTask` | src/app/page.tsx:37-40 | the tasks become the old list without the task at the index, with the order of the others preserved; an out-of-range index is a no-op; the draft and the invariant are kept |

## Left out

- The JSX markup, class strings and strikethrough styling (src/app/page.tsx:42-105): presentation only.
- React's `useState` machinery, re-rendering and the batching of `setTasks` and `setTask` inside `addTask`: each handler is modelled as one atomic update of the values it reads.
- DOM event wiring (`onClick`, `onChange`) and the `key={index}` hint: framework concerns with no logic of their own.
- The handlers' `index` is a JavaScript number. The model uses `int`, because the view only passes list positions. A fractional or NaN index would equal no position, and the model treats such an index as out of range, which is also a no-op.
- The whitespace set in `Text.IsWhitespace` is the list of ECMAScript WhiteSpace and LineTerminator code points. The Unicode space-separator table is fixed as of the current standard, and no general lemma depends on which characters are in the set.
- Dafny strings are sequences of Unicode scalar values, while JavaScript strings are UTF-16 code units, so a draft holding a lone surrogate cannot be represented. This does not affect the emptiness test or the verbatim storage of the draft: every character `trim()` strips lies in the Basic Multilingual Plane and none is a surrogate.
