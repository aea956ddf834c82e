# To-do app core: filtered view and error notifications

A model, in Dafny, of the non-presentational logic of a small React to-do app.

- **List view** (`TodoList.dfy`, module `TodoList`) covers `src/components/TodoList.tsx`.
  - The component gets the loaded todos (`todosData`) and keeps a filter selection (`filterBy`), which is `all`, `active` or `completed`.
  - The rendered subset is the whole list, the incomplete todos or the completed todos, always in list order.
  - The footer's "items left" counter covers the whole list, whatever the filter.
  - Each filter link is marked selected exactly when it is the current filter.
  - When the parent passes a new list, the selection is kept and the view follows the new list.
- **Root controller** (`App.dfy`, module `App`) covers `src/App.tsx`. It is a class whose fields are the component's state slots:
  - the loaded list (absent until the load settles);
  - the active error messages (insertion-ordered, without repeats);
  - the new-todo input and the loading flag;
  - the notification's visibility flag;
  - the recorded auto-dismiss timer handle (`errorTimeout`).
- **Timers.** The timer runtime is modelled by a set of pending callback handles and a counter for fresh handles. `TimerFires` is the event of the armed callback running.
- **Events.** One method per event: raising an error, the timer firing, the close button, typing, submitting the form, and the load settling.
- **Invariant** (`App.Valid`):
  - no message appears twice;
  - only the recorded handle can be pending, so at most one timer is armed;
  - the notification is visible exactly while a timer is pending, so every visible notification expires;
  - messages are held only while the notification is visible.
- **Helpers.** `[...new Set([...prev, m])]` is modelled by `Dedup` and `AppendUnique`. JavaScript's `trim` is modelled by `TrimStart`, `TrimEnd` and `Trim`, using the ECMAScript white-space and line-terminator characters.
- **Types.** `Types.dfy` holds the `Todo` record and `Option`.

Two behaviours of the code are kept as they are:
- **Submitting a non-blank title** clears the messages but leaves the visibility flag and the pending timer alone. So a visible notification with no messages is reachable until the timer fires. `HandleFormSubmit` states this behaviour.
- **The filtered list** is cached in its own state slot in the source and rewritten by an effect. The model derives it on read (`TodoListView.VisibleTodos`), which is the value the effect writes.

## Model

| member | source | states |
|---|---|---|
| `TodoList.Keep` | src/components/TodoList.tsx:17-20 | a todo is in the filtered list iff it is in the input and its `completed` flag is the one asked for; the result is never longer than the input |
| `TodoList.KeepIsSubsequence` | src/components/TodoList.tsx:17-20 | the active and completed views are subsequences of the loaded list (original relative order, nothing invented) |
| `TodoList.KeepIsLongest` | src/components/TodoList.tsx:17-20 | no subsequence made only of matching todos is longer than the filtered list |
| `TodoList.KeepIsUnique` | src/components/TodoList.tsx:17-20 | the filtered list is the only subsequence of matching todos that long: exactly the matching todos, in original order |
| `TodoList.KeepPartition` | src/components/TodoList.tsx:14-22 | the active and completed views split the list: their lengths add up to its length, and their multisets add up to its multiset |
| `TodoList.VisibleIsSubsequence` | src/components/TodoList.tsx:14-22 | under every filter the rendered subset is a subsequence of the list; `all` gives the list itself; `active`/`completed` hold exactly the todos with `completed` false/true |
| `TodoList.Visible` | src/components/TodoList.tsx:14-22 | the rendered subset holds exactly the todos of the list that pass the filter (all of them, the incomplete ones or the completed ones), and is never longer than the list |
| `TodoList.ItemsLeft` | src/components/TodoList.tsx:162 | the items-left count is at most the list length, and is zero iff every todo is completed |
| `TodoList.ItemsLeftMatchesViews` | src/components/TodoList.tsx:162 | the count equals the length of the active view and the list length minus the completed view's length |
| `TodoList.TodoListView.constructor` | src/components/TodoList.tsx:10-12 | mounting keeps the given list, selects `all`, and so renders the whole list |
| `TodoList.TodoListView.VisibleTodos` | src/components/TodoList.tsx:14-22 | the list section shows an order-preserving subsequence of the current list, made of exactly the todos that pass the current filter |
| `TodoList.TodoListView.ItemsLeftCount` | src/components/TodoList.tsx:162 | the footer counter covers the whole list: it equals the size of the active view, is at most the list length, and is zero iff every todo is completed |
| `TodoList.TodoListView.IsSelected` | src/components/TodoList.tsx:167-191 | a link carries the `selected` class only when the rendered subset is that link's view of the list |
| `TodoList.TodoListView.ExactlyOneSelected` | src/components/TodoList.tsx:167-191 | the current filter's link is selected, every selected link is the current filter, and some link is always selected |
| `TodoList.TodoListView.SetFilterBy` | src/components/TodoList.tsx:171-191 | a link click changes only `filterBy`: it selects that link, the list and the items-left count are unchanged, and the visible subset is re-derived from the unchanged list |
| `TodoList.TodoListView.ReceiveTodos` | src/components/TodoList.tsx:10-22 | a new list from the parent replaces the held one and keeps the selection; the rendered subset and the counter follow the new list (the effect depends on `todosData`) |
| `App.Dedup` | src/App.tsx:23 | building a set and spreading it gives a list without repeats holding exactly the same messages, never longer |
| `App.DedupKeepsFirstOccurrenceOrder` | src/App.tsx:23 | the deduplicated list keeps first occurrences in order: of any two messages in it, the earlier one occurs in the input before any occurrence of the later one |
| `App.DedupKeepsDistinct` | src/App.tsx:23 | a list that already has no repeats is returned unchanged |
| `App.AppendUnique` | src/App.tsx:22-24 | after adding `m`, `m` is present exactly once and nothing else is new; for a repeat-free list the result is the list itself when `m` was present, else the list with `m` at the end |
| `App.IsJsWhitespace` | src/App.tsx:44 | spaces, tabs, line feeds and carriage returns are trimmed; letters and digits never are |
| `App.IsBlank` | src/App.tsx:44 | a string is blank iff every character in it is white space; the empty string is blank |
| `App.TrimStart` | src/App.tsx:44 | the result is a suffix of the input that does not start with white space, and everything dropped is white space |
| `App.TrimEnd` | src/App.tsx:44 | the result is a prefix of the input that does not end with white space, and everything dropped is white space |
| `App.Trim` | src/App.tsx:44 | the trimmed string neither starts nor ends with white space, and it is empty iff the input is all white space |
| `App.TrimSplits` | src/App.tsx:44 | the input is its leading white space, then the trimmed string, then its trailing white space, with both cut-off parts named |
| `App.TrimCutsOnlyWhitespace` | src/App.tsx:44 | the input is some blank text, then the trimmed string, then some blank text: `trim` removes white space only and keeps the middle unchanged |
| `App.App.AtMostOneTimerArmed` | src/App.tsx:27-36 | under the invariant at most one timer is pending, and a pending timer is the one recorded in `errorTimeout` |
| `App.App.ListShown` | src/App.tsx:97 | the list section is never rendered while loading, before a list has arrived, or for an empty list |
| `App.App.constructor` | src/App.tsx:13-18 | the first render has no list, is loading, has empty input, no messages, hidden notification and no timer; the list-render guard (line 97) is off |
| `App.App.ShowError` | src/App.tsx:20-39 | the message is added if absent (earlier messages keep their order, a repeat does not grow the list), the notification is visible, every previously pending timer is cancelled and exactly one fresh timer is armed; the list, input and loading flag are unchanged; the invariant is kept |
| `App.App.TimerFires` | src/App.tsx:31-34 | the armed callback empties the messages, hides the notification and leaves no timer pending; nothing else changes |
| `App.App.Dismiss` | src/App.tsx:119-125 | the close button empties the messages, hides the notification and cancels the pending timer; on a state it already produced it changes nothing (idempotent) |
| `App.App.ChangeInput` | src/App.tsx:92 | typing replaces the input and keeps the invariant |
| `App.App.HandleFormSubmit` | src/App.tsx:41-52 | a blank input (one that trims to empty) raises "Title should not be empty" and keeps the input; otherwise the input and messages are cleared, and the visibility flag and timer are left as they were |
| `App.App.LoadSettled` | src/App.tsx:54-65 | on success the list is replaced by the fetched one and the notification (messages, visibility, recorded and pending timers) is untouched; on failure the list is kept and "Unable to load todos" is raised; in both cases loading ends, and the list is then rendered iff it is present and non-empty (guard at line 97) |

## Left out

- Markup and styling are not modelled. This covers the JSX, the `classnames` calls other than the `selected` predicates, the commented-out templates, and the inert checkbox, delete, toggle-all and clear-completed controls. None of them has behaviour.
- The fetch itself (`getTodos`), `USER_ID` and the `UserWarning` fallback are not modelled: their source is not part of this model. The loader is the `LoadOutcome` argument of `LoadSettled`.
- `src/types/Todo.ts` is not part of this model. `Todo` has the three fields the core reads: `id`, `title` and `completed`.
- Real time, `setTimeout` and `clearTimeout` are not modelled. Timers are handles in a pending set. The 3000 ms delay is only the constant `ErrorDismissDelayMs`.
- TimerFires: takes as a precondition that the handle is pending, because the runtime only runs scheduled, uncleared callbacks.
- React's scheduling is not modelled. This covers batched state updates and `useCallback`/`useEffect` dependency arrays. It also covers the stale `errorTimeout` captured by an older `showError` closure, and the load effect re-running whenever `showError` changes identity. Each event handler runs to completion on the current state. `LoadSettled` may be called any number of times, which covers the re-runs' outcomes but not what triggers them.
- Because every `showError` call stores a new timer handle (src/App.tsx:36), gives `showError` a new identity (line 38) and so re-runs the load effect (line 68), a loader that keeps failing re-fetches and re-raises the load error without end. The model does not capture this loop, because it does not model the effect's triggering.
- The guard at src/App.tsx:97 evaluates to the number 0 for a loaded empty list, and React renders that as the text "0". The model tracks only whether the list section is rendered (`ListShown`).
- TodoListView.VisibleTodos: the source keeps the filtered list in a separate state slot that its effect rewrites after each render. The model derives it from the list and the filter on read, so the single render where the slot still holds the previous filter's list is not modelled.
- TodoListView.SetFilterBy: `filterBy` is a string in the source. The model uses the three-valued `Filter`, because only the literals `'all'`, `'active'` and `'completed'` are ever written. The effect's missing `else` branch is therefore never taken.
