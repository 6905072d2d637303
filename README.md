# To-do list state model

A Dafny model of the state logic of a single-page to-do list editor
(`src/App.jsx`). The component holds an ordered list of task records
`{id, text, done}`, the add-box text, the id of the task being edited
(or `null`), and the edit scratch text. Five handlers move it from one
state to the next:

- add: appends a new not-done task unless the add-box text is blank after trimming;
- delete: keeps only the tasks whose id differs;
- toggle: flips `done` on the tasks whose id matches;
- start edit: records which task is being edited and its scratch text;
- save edit: writes the scratch text into the matching tasks and ends the edit.

The project has three modules:

- `Text` (`Text.dfy`): the whitespace set that `String.prototype.trim` strips.
  This is the ECMAScript WhiteSpace set, which includes every Unicode `Zs`
  space separator, plus the LineTerminator characters. The module also defines
  `Trim` and proves that a trimmed string is empty exactly when every
  character is whitespace (`IsBlank`).
- `TaskList` (`TaskList.dfy`): the `Task` record and the three list
  transforms, each a recursive function over `seq<Task>`:
  - `Remove` is the `filter`;
  - `Toggle` is the `done` flipping `map`;
  - `SetText` is the text overwriting `map`.

  The module also holds the lemmas about them: order, length bookkeeping,
  involution, the no-match cases and independence.
- `TodoApp` (`App.dfy`): class `App` with the four state fields and one
  method per handler. Each method's postcondition gives all four fields
  afterwards in terms of the old ones. The class invariant `Valid()` says that
  the scratch text is empty whenever no edit is in progress. A client method
  replays a short session from an empty list.

Ids come from `Date.now()` (src/App.jsx:20); in the model the id is a
parameter of `AddTask`. Two adds in the same millisecond give two tasks with
one id, so nothing assumes that ids are unique. The `filter` at
src/App.jsx:25 and the `map` calls at src/App.jsx:29-31 and 41-43 act on every
record whose id matches, and every property is stated for that general case.

## Model

| member | source | states |
|---|---|---|
| `Text.Trim` | src/App.jsx:19 | the trimmed text is empty exactly when every character of the input is whitespace, is no longer than the input, and otherwise begins and ends with a non-whitespace character |
| `Text.TrimIsInfix` | src/App.jsx:19 | the trimmed text is the infix of the input that lies between a whitespace-only prefix and a whitespace-only suffix |
| `Text.TrimStart` | src/App.jsx:19 | the result is the suffix of the input left after removing all leading whitespace, and does not begin with whitespace |
| `Text.TrimEnd` | src/App.jsx:19 | the result is the prefix of the input left after removing all trailing whitespace, and does not end with whitespace |
| `TaskList.Remove` | src/App.jsx:25 | the filtered list is shorter than the input by exactly the number of records that carry the id |
| `TaskList.RemoveMembers` | src/App.jsx:25 | a record is in the filtered list iff it was in the input and its id differs, so no record with the id remains |
| `TaskList.RemoveAbsent` | src/App.jsx:25 | deleting an id that no record carries leaves the list unchanged |
| `TaskList.RemoveAppend` | src/App.jsx:25 | the filter of a concatenation is the concatenation of the filters, so kept records keep their relative order |
| `TaskList.RemovePosition` | src/App.jsx:25 | a kept record at position i ends up at the position equal to the number of kept records before i |
| `TaskList.PositionsIncrease` | src/App.jsx:25 | a kept record at index i lands before every record from a later index j, so kept records keep their relative order |
| `TaskList.RemoveIdempotent` | src/App.jsx:25 | deleting the same id twice gives the same list as deleting it once |
| `TaskList.Toggle` | src/App.jsx:27-32 | length, order, every id and every text are kept; `done` is flipped on exactly the records with the id; every other record is identical |
| `TaskList.ToggleInvolution` | src/App.jsx:27-32 | toggling the same id twice restores the original list |
| `TaskList.ToggleAbsent` | src/App.jsx:27-32 | toggling an id that no record carries leaves the list unchanged |
| `TaskList.SetText` | src/App.jsx:39-44 | length, order, every id and every `done` are kept; the text of exactly the records with the id becomes the given text, even a blank one; every other record is identical |
| `TaskList.SetTextAbsent` | src/App.jsx:39-44 | saving an edit for an id that no record carries leaves the list unchanged |
| `TaskList.ToggleSetTextCommute` | src/App.jsx:27-44 | toggling and saving an edit commute, for the same id or different ids: completion and text are independent |
| `TodoApp.App.constructor` | src/App.jsx:4-11 | the initial state holds the given saved list, an empty add box, no edit target and empty scratch text |
| `TodoApp.App.SetNewTask` | src/App.jsx:61 | typing in the add box replaces its text and changes nothing else |
| `TodoApp.App.AddTask` | src/App.jsx:18-23 | if the add-box text is blank, nothing changes; otherwise one record is added at the end: the given id, the untrimmed text, `done` false. Earlier records are unchanged and in order, the add box becomes empty and the edit state is kept |
| `TodoApp.App.DeleteTask` | src/App.jsx:25 | the list becomes the filtered list and shrinks by the number of matches; it is unchanged when nothing matches; the other fields are unchanged |
| `TodoApp.App.ToggleDone` | src/App.jsx:27-32 | the list becomes the toggled list, and toggling again would restore the old list; the other fields are unchanged |
| `TodoApp.App.StartEdit` | src/App.jsx:34-37 | the edit target and scratch text are set to the arguments, replacing any edit in progress; the list and the add box are unchanged |
| `TodoApp.App.SetEditingText` | src/App.jsx:83 | while an edit is in progress, typing replaces the scratch text and changes nothing else |
| `TodoApp.App.SaveEdit` | src/App.jsx:39-47 | matching records take the scratch text with no blank check; the list is unchanged when nothing matches; the edit target and scratch text are then cleared in either case |
| `TodoApp.SessionScenario` | src/App.jsx:18-47 | starting from an empty list: a blank add is ignored; adding, toggling, saving an empty edit and deleting one task give the expected lists; the last list is empty |

## Left out

- Rendering, styling and event wiring (src/App.jsx:49-128). These are UI. The
  Enter-key handlers only call the modelled handlers. The two `onChange`
  handlers are modelled as `SetNewTask` and `SetEditingText`.
- Reading and writing browser storage, and the JSON encoding and decoding of
  the list (src/App.jsx:4-7, 14-16). The start-up list is the constructor's
  `saved` argument. No serialisation round trip is modelled, and neither is
  the behaviour when the stored data is corrupt.
- `Date.now()` (src/App.jsx:20). The id is a parameter of `AddTask`. No claim
  is made that ids are unique or increasing.
- React's batching of state updates and its stale closures. Each handler is
  modelled as one atomic transition.
- Ids are unbounded integers, not JavaScript numbers. The source compares
  them only with `===`, and clock readings are integers.
- Text.IsWhitespace: fixes the Unicode `Zs` set as it stands in current
  Unicode versions. The set a given JavaScript engine uses depends on the
  Unicode version it was built with.
- Task text is a sequence of Unicode scalar values, while JavaScript strings
  are UTF-16 code units, so a lone surrogate cannot be represented. The blank
  check is unaffected: every character `trim` strips lies in the Basic
  Multilingual Plane and is not a surrogate.
