# koast-ui: folder-tree reducer and time-slider logic in Dafny

koast-ui is a React component library. Most of it is presentation. This
project models the three pieces of it that hold real logic, and proves what
they promise.

- **The folder-tree state engine** (`useTreeState.ts`):
  - `updateNodeAtPath` rebuilds the tree copy-on-write along an index path.
  - `sortNodes` orders siblings: folders first, then by name.
  - `treeReducer` handles five actions: `addNode`, `deleteNode`,
    `renameNode`, `toggleOpen` and `moveNode`.
  - All of it is pure. The model is datatypes (`TreeNode`, `TreeAction`)
    and functions. A path the JavaScript would fault on, with a TypeError
    from reading a field of `undefined`, gives `None`.
- **Time-slider step generation and formatting** (`TimeSlider.func.ts`):
  - `generateSteps` is a loop, and is modelled as a method with a loop
    invariant, proved against the recursive function `StepsFrom`.
  - `calculateIndex` maps a click to a step index, over exact reals.
  - `zeroPad`, `getMonthOneBased` and `getDefaultMessage` build date labels.
- **The time-slider component state** (`TimeSlider.tsx`):
  - Step-source selection, the initial timestamp and the nearest-step
    initial index are functions.
  - The mounted component is the class `Slider`:
    - fields: its fixed `steps` and the React state `currentIndex` and
      `isRun`;
    - one method per event: next, prev, click, play toggle, and one
      interval tick.
  - Each method is tied to a pure transition function that the lemmas
    reason about.

Files:

| file | module | contents |
|---|---|---|
| `wrappers.dfy` | `Wrappers` | `Option`, for `undefined` and for faults |
| `tree_types.dfy` | `TreeTypes` | `TreeNode`, `TreeAction`, `NodeAt` |
| `tree_update.dfy` | `TreeUpdate` | `updateNodeAtPath` |
| `tree_sort.dfy` | `TreeSort` | `sortNodes` |
| `tree_reducer.dfy` | `TreeReducer` | `treeReducer` and its updaters |
| `tree_reducer_lemmas.dfy` | `TreeReducerLemmas` | what each action does |
| `time_types.dfy` | `TimeSliderTypes` | `TimeUnit`, timestamps, the calendar step |
| `time_steps.dfy` | `TimeSteps` | `generateSteps` |
| `time_format.dfy` | `TimeFormat` | `zeroPad`, `getDefaultMessage` |
| `time_index.dfy` | `TimeIndex` | `calculateIndex` |
| `time_slider.dfy` | `TimeSliderComponent` | step source, initial index, the `Slider` class |

Modelling choices:

- Host services outside the model are parameters:
  - `localeCompare` is `le`, where `le(a, b)` means `a.localeCompare(b) <= 0`;
  - the `Math.random` id is `freshId`;
  - the `Date` setters are `advance(t, unit, value)`;
  - the `Date` getters are the record `DateFields`.
- Dates are integer millisecond timestamps.
- The sort is a stable insertion sort. For a comparator that is a total
  preorder, every stable sort gives the same output.
- Behaviour of the code a reader may not expect:
  - `addNode` names the new node `'새 폴더'` whenever a non-empty name is
    given, because `name || nodeType === 'folder' ? … : …` groups as
    `(name || …) ? … : …`. A custom name is never used.
  - `deleteNode([])` does not fault: `path[-1]` is `undefined`, so it only
    re-sorts the root's children.
  - The reducer reads `moveNode`'s target path in the tree after the source
    is removed, so `moveNode(p, p)` is not a no-op. It moves the node under
    the sibling that takes index `p` after the removal and re-sort, and
    faults when no sibling does (`p` named the last child). `moveNode([], [])`
    returns the state, because `path[-1]` is `undefined`. Moving a node onto itself, or onto a file, is blocked only by
    the drop handler in `TreeNode.tsx:85-87`.
  - An empty `steps` array is used as the step list (arrays are truthy in
    JavaScript). With no steps, a click sets the index to
    `Math.min(0, -1) = -1`.

## Model

The functions that transcribe the source with no contract of their own are
named in the rows of the lemmas that state their behaviour: `TreeReducer.Reduce`
and its branches `Add`, `Delete`, `Rename`, `ToggleAt` and `Move`; the
updaters `AddChild`, `RemoveChild`, `TakeChild`, `RenameChild` and `Toggle`;
`TreeReducer.NewNode`; `TimeFormat.DefaultMessage`; and
`TimeSliderComponent.InitialStepIndex`.

| member | source | states |
|---|---|---|
| TreeUpdate.UpdateAt | src/components/FolderTree/useTreeState.ts:4-16 | The update succeeds exactly when the path names a node; `None` is the TypeError every reducer updater raises on reading a field of the `undefined` it is handed for a missing node, or the walk raises below it. An empty path gives `updater(root)`. For a non-empty path, the root keeps every field but `children`, keeps its child count, and keeps every child except `children[path[0]]`. |
| TreeUpdate.UpdateAtTarget | src/components/FolderTree/useTreeState.ts:9-13 | After the update, the node at `path` is the updater applied to the node that was there. |
| TreeUpdate.UpdateAtElsewhere | src/components/FolderTree/useTreeState.ts:11-15 | Every node whose path neither runs through `path` nor lies on the way to it is unchanged. |
| TreeUpdate.UpdateAtIdentity | src/components/FolderTree/useTreeState.ts:4-16 | Updating with the identity gives back an equal tree. |
| TreeUpdate.UpdateAtTwo | src/components/FolderTree/useTreeState.ts:4-16 | Two successive updates at one path equal one update by their composition. |
| TreeSort.Insert | src/components/FolderTree/useTreeState.ts:19-30 | Inserting one node into a list gives one more element, and the multiset gains exactly that node. |
| TreeSort.InsertFoldersFirst | src/components/FolderTree/useTreeState.ts:21-23 | Inserting into a folders-first list keeps it folders-first. |
| TreeSort.SortNodes | src/components/FolderTree/useTreeState.ts:18-31 | The result is a permutation of the input (same length, same multiset) in which no file precedes a folder. |
| TreeSort.PrecedesTotalPreorder | src/components/FolderTree/useTreeState.ts:19-29 | For a total-preorder name order, the sibling comparator is total and transitive. |
| TreeSort.InsertSorted | src/components/FolderTree/useTreeState.ts:19-30 | Inserting into a sorted list keeps it sorted under the comparator. |
| TreeSort.SortNodesSorted | src/components/FolderTree/useTreeState.ts:18-31 | For a total-preorder name order the output is fully sorted: folders first, and by name within a kind. |
| TreeReducer.NewNodeName | src/components/FolderTree/useTreeState.ts:44 | The new name is always one of the two labels. It is `'새 폴더'` whenever the given name is non-empty. With no name or an empty one, it is `'새 폴더'` exactly for a folder. |
| TreeReducer.ChildAt | src/components/FolderTree/useTreeState.ts:97-99 | `children[index]` is defined exactly when the index is in range, and is then the child at that index. |
| TreeReducer.Without | src/components/FolderTree/useTreeState.ts:61 | The filter drops exactly the indexed child when the index is in range: one fewer element, and that child gone from the multiset. Otherwise nothing changes. |
| TreeReducer.Renamed | src/components/FolderTree/useTreeState.ts:73-77 | The map keeps the length and changes at most the name of each child. Every child other than the indexed one, and every child when the name is empty or missing, is kept. The indexed child takes the given non-empty name. |
| TreeReducerLemmas.AddNodeEffect | src/components/FolderTree/useTreeState.ts:35-51 | Of `Reduce` on `addNode`, `Add`, `NewNode` and `AddChild`: `addNode` faults exactly when the path leaves the tree. On a node, the node becomes open, keeps its other fields, gains exactly one child, and the new multiset is the old one plus the new node. That node has the fresh id, the quirky name, type `nodeType` (a file by default), `children = []` only for a folder, and is open. Folders stay first. |
| TreeReducerLemmas.AddChildAtEffect | src/components/FolderTree/useTreeState.ts:37-50 | Of `AddChild` under `UpdateAt`: the add-child updater at a path faults exactly off the tree. Otherwise the node is open, keeps its other fields, contains the child, has one more child, and its multiset gains exactly that child. Folders stay first. |
| TreeReducerLemmas.DeleteNodeEffect | src/components/FolderTree/useTreeState.ts:53-64 | Of `Reduce` on `deleteNode`, `Delete` and `RemoveChild`: after deleting an in-range child, the parent keeps its other fields, has one fewer child, and its multiset loses exactly the removed child. Its children stay folders-first. |
| TreeReducerLemmas.DeleteEmptyPathOnlySorts | src/components/FolderTree/useTreeState.ts:55-63 | Of `Delete` and `RemoveChild`: `deleteNode([])` removes nothing: the root keeps its fields and the multiset of its children, which come back folders-first. |
| TreeReducerLemmas.RenameNodeEffect | src/components/FolderTree/useTreeState.ts:66-80 | Of `Reduce` on `renameNode`, `Rename` and `RenameChild`: under an existing parent, rename keeps the parent's other fields and its child count. The children are the renamed list up to order. With an empty or missing name they are the same multiset. With a name and an in-range index, the renamed child is among them. |
| TreeReducerLemmas.ToggleOpenEffect | src/components/FolderTree/useTreeState.ts:82-88 | Of `Reduce` on `toggleOpen`, `ToggleAt` and `Toggle`: toggle faults exactly off the tree. At the node, `isOpen` becomes defined and true exactly when it was not `true` before. Nothing else at the node changes, and its children are not re-sorted. |
| TreeReducerLemmas.ToggleOpenTwice | src/components/FolderTree/useTreeState.ts:82-88 | Of `ToggleAt` and `Toggle`: toggling twice restores the tree when `isOpen` was defined. From `undefined`, it sets `isOpen = false` and changes nothing else. |
| TreeReducerLemmas.MoveWithoutTarget | src/components/FolderTree/useTreeState.ts:90-92 | Of `Reduce` on `moveNode`: `moveNode` with no target path returns the state unchanged. |
| TreeReducerLemmas.MoveWithoutSource | src/components/FolderTree/useTreeState.ts:95-106 | Of `Move` and `TakeChild`: if the source index holds no node, the state comes back unchanged. If the source's parent is off the tree, the move faults. |
| TreeReducerLemmas.MoveNodeArrives | src/components/FolderTree/useTreeState.ts:108-113 | Of `Move`, with `TakeChild`'s captured `nodeToMove` and `AddChild`: when the target still names a node after the removal, the move succeeds. The target ends open, holds the moved node, and has one more child than it had after the removal. |
| TreeReducerLemmas.MoveIntoNextSiblingFaults | src/components/FolderTree/useTreeState.ts:96-109 | Of `Move`: because the target path is read after the removal, moving the first of two root folders into the second faults: index 1 is then past the end. |
| TreeReducerLemmas.MoveOntoOwnPathNestsUnderFile | src/components/FolderTree/useTreeState.ts:96-113 | Of `Move`: in the reducer, `moveNode([0], [0])` with a folder and a file at the root nests the folder under the file. The file slides to index 0 and is opened. |
| TreeReducerLemmas.MoveOntoOwnLastPathFaults | src/components/FolderTree/useTreeState.ts:96-112 | Of `Move`: `moveNode([1], [1])` on a root with two children faults, because after the removal no sibling takes index 1. |
| TreeReducerLemmas.MoveEmptyPathsKeepsState | src/components/FolderTree/useTreeState.ts:95-106 | Of `Move`: `moveNode([], [])` returns the state unchanged, since `path[-1]` names no child. |
| TreeReducerLemmas.AddToChildlessFirst | src/components/FolderTree/useTreeState.ts:109-113 | Of `AddChild`: adding a node to a childless only child opens it and gives it exactly that one child. |
| TimeSteps.StepsFrom | src/components/TimeSlider/TimeSlider.func.ts:11-13 | No steps exactly when the start is past the end. Otherwise the first step is the start. |
| TimeSteps.GenerateSteps | src/components/TimeSlider/TimeSlider.func.ts:4-38 | The loop's output is the step sequence `StepsFrom(start, end, …)`. It terminates whenever the start is past the end or each step moves time forward. |
| TimeSteps.StepsShape | src/components/TimeSlider/TimeSlider.func.ts:12-36 | Every step lies between the start and the end. Each step is the previous one advanced by `stepValue` units. The next date after the last step is past the end. |
| TimeSteps.StepsIncreasing | src/components/TimeSlider/TimeSlider.func.ts:12-36 | When time moves forward, the steps strictly increase. |
| TimeSteps.StepsComplete | src/components/TimeSlider/TimeSlider.func.ts:12-36 | The k-th step exists exactly when the k-th iterate of the advance from the start is not past the end, and it is that iterate. |
| TimeSteps.StoryFiveSteps | src/components/TimeSlider/TimeSlider.func.ts:27-28 | 07:47 to 09:47 in 30-minute steps gives exactly 07:47, 08:17, 08:47, 09:17 and 09:47. |
| TimeFormat.NatString | src/components/TimeSlider/TimeSlider.func.ts:41 | `String(n)` is non-empty and all digits. It has two or more digits exactly when `n >= 10`, and starts with `0` only for 0. |
| TimeFormat.DecimalString | src/components/TimeSlider/TimeSlider.func.ts:41 | For `n >= 0`, `String(n)` is all digits, reads back as `n`, and starts with `0` only for 0. For `n < 0` it is `-` followed by digits without a leading zero that read back as `-n`. |
| TimeFormat.ParseNatString | src/components/TimeSlider/TimeSlider.func.ts:41 | The digits of `String(n)` read back as `n`. |
| TimeFormat.PadStart | src/components/TimeSlider/TimeSlider.func.ts:41 | `padStart` gives the longer of the string and the target length. The string is kept as the suffix, and every character before it is the pad. |
| TimeFormat.ZeroPad | src/components/TimeSlider/TimeSlider.func.ts:40-42 | The label is at least `length` characters long, and a number with at least `length` characters comes back unchanged. |
| TimeFormat.ZeroPadShape | src/components/TimeSlider/TimeSlider.func.ts:40-42 | The label is `String(n)` after nothing but zeros. |
| TimeFormat.ZeroPadParse | src/components/TimeSlider/TimeSlider.func.ts:40-42 | A padded non-negative number is all digits and reads back as the number. |
| TimeFormat.TwoDigits | src/components/TimeSlider/TimeSlider.func.ts:40-42 | Below 100 the default padding gives exactly the tens digit then the units digit, which read back as `n`. Numbers of two digits come back as `String(n)`. |
| TimeFormat.MonthOneBased | src/components/TimeSlider/TimeSlider.func.ts:44-46 | The one-based month is the zero-based one plus one, and lies in 1..12 for a valid date. |
| TimeFormat.HourMinuteMessage | src/components/TimeSlider/TimeSlider.func.ts:58-61 | Of `DefaultMessage`: `hour` and `minute` both give five characters `HH:MM`, whose fields read back as the hours and the minutes. |
| TimeFormat.SecondMessage | src/components/TimeSlider/TimeSlider.func.ts:56-57 | Of `DefaultMessage`: `second` gives `MM:SS`, whose fields read back as the minutes and the seconds. |
| TimeFormat.DayMessage | src/components/TimeSlider/TimeSlider.func.ts:54-55 | Of `DefaultMessage`: `day` gives `MM-DD`, whose fields read back as the one-based month and the day. |
| TimeFormat.MonthMessage | src/components/TimeSlider/TimeSlider.func.ts:52-53 | Of `DefaultMessage`: `month` gives `String(year)`, `-`, then the tens and units digits of the one-based month. Those two digits read back as the one-based month. |
| TimeFormat.YearMessage | src/components/TimeSlider/TimeSlider.func.ts:50-51 | Of `DefaultMessage`, for a non-negative year: `year` gives the year's digits, which read back as the year. |
| TimeIndex.Fraction | src/components/TimeSlider/TimeSlider.func.ts:77-78 | The clamped percentage lies in [0, 1]. It is 0 at or left of the gauge and 1 at or beyond its right edge. Inside the gauge, it is the exact fraction of the width. |
| TimeIndex.CalculateIndex | src/components/TimeSlider/TimeSlider.func.ts:75-80 | With at least one step, the index lies in `[0, dataLength - 1]`. It is 0 for a click at or left of the gauge and `dataLength - 1` at or beyond its right edge. With no steps it is `-1`. |
| TimeIndex.CalculateIndexCell | src/components/TimeSlider/TimeSlider.func.ts:77-79 | Inside the gauge, the click's position counted in cell widths lies in `[r, r + 1)` for the returned index `r`. |
| TimeIndex.CalculateIndexMonotone | src/components/TimeSlider/TimeSlider.func.ts:75-80 | A click further right never gives a smaller index. |
| TimeSliderComponent.CalculatedSteps | src/components/TimeSlider/TimeSlider.tsx:38-45 | A given list is used as is, even when empty. A given function is called with the configuration. Without a `steps` prop the steps are generated: none exactly when the start is past the end, the start first, and all within the range. |
| TimeSliderComponent.InitialTimestamp | src/components/TimeSlider/TimeSlider.tsx:68 | The initial timestamp is `initialDate` exactly when that equals some step, and `start` otherwise. |
| TimeSliderComponent.NearestPrefix | src/components/TimeSlider/TimeSlider.tsx:69-76 | The reduce inside `InitialStepIndex` gives an index in range, or 0 with no steps. Its step is at least as near to the timestamp as every step, and strictly nearer than every earlier step, so ties go to the earliest. |
| TimeSliderComponent.InitialStepIndexFindsStep | src/components/TimeSlider/TimeSlider.tsx:69-76 | Of `InitialStepIndex`: when the timestamp is a step, the initial index is its first occurrence. |
| TimeSliderComponent.GeneratedStartIndex | src/components/TimeSlider/TimeSlider.tsx:38-76 | Of `InitialStepIndex` on generated steps: with generated steps and start ≤ end, the initial index names a step. That step is `initialDate` when it is one of them, and index 0 is used when no `initialDate` is given. |
| TimeSliderComponent.NextIndex | src/components/TimeSlider/TimeSlider.tsx:138-141 | `handleNext` moves up by one exactly when the next index exists, and otherwise stays put. It stays in range. |
| TimeSliderComponent.PrevIndex | src/components/TimeSlider/TimeSlider.tsx:143-146 | `handlePrev` stays put exactly at 0, and otherwise moves down by one. It never goes below 0 from a valid index. |
| TimeSliderComponent.NextPrevInverse | src/components/TimeSlider/TimeSlider.tsx:138-146 | A possible next is undone by prev, and a possible prev is undone by next. |
| TimeSliderComponent.TickStep | src/components/TimeSlider/TimeSlider.tsx:111-121 | A tick keeps playing exactly when a next index exists, and then moves to it. Otherwise it keeps the index and stops. |
| TimeSliderComponent.PlayToEnd | src/components/TimeSlider/TimeSlider.tsx:102-129 | Started at a valid index `i`, auto-play is on the last step and still running after `length - 1 - i` ticks, and one more tick stops it there. |
| TimeSliderComponent.PlayInRange | src/components/TimeSlider/TimeSlider.tsx:111-121 | Any number of ticks from a valid index stays in range. |
| TimeSliderComponent.Slider.constructor | src/components/TimeSlider/TimeSlider.tsx:29-78 | Mounting computes the steps as `CalculatedSteps`, running the generation loop when there is no `steps` prop. It starts on the initial step index, stopped, with a valid index. |
| TimeSliderComponent.Slider.HandleNext | src/components/TimeSlider/TimeSlider.tsx:138-141 | The new index is `NextIndex` of the old one. The play state is unchanged and the index stays valid. |
| TimeSliderComponent.Slider.HandlePrev | src/components/TimeSlider/TimeSlider.tsx:143-146 | The new index is `PrevIndex` of the old one. The play state is unchanged and the index stays valid. |
| TimeSliderComponent.Slider.HandleClick | src/components/TimeSlider/TimeSlider.tsx:131-136 | Without a gauge nothing changes. Otherwise the index becomes `calculateIndex` of the click (unchanged when equal), the play state is kept, and the index stays valid. |
| TimeSliderComponent.Slider.TogglePlay | src/components/TimeSlider/TimeSlider.tsx:185-187 | The play button flips `isRun` and keeps the index, which stays valid. |
| TimeSliderComponent.Slider.Tick | src/components/TimeSlider/TimeSlider.tsx:111-121 | One interval firing moves the state as `TickStep` says, keeping the index valid. |

## Left out

- The `useTreeState` hook (`useTreeState.ts:121-154`): it only wraps `dispatch` for each action; the reducer it wraps is modelled.
- `localeCompare` with numeric collation: host ICU collation, a parameter `le`; sortedness by name is proved for any total preorder.
- `Math.random().toString(36)` ids: nondeterministic, a parameter `freshId`.
- Object identity and structural sharing: trees are compared as values. In the source, `return state` (`useTreeState.ts:92`, `106`) hands back the same object, which React's `useReducer` uses to skip a re-render and `FolderTree.tsx:17-19` uses to skip `onChange`; a rebuilt but equal tree (such as `renameNode` with an empty name) triggers both. The model does not tell these apart.
- `isEditing`: carried through unchanged as an optional field; nothing in the core reads it.
- `Date` calendar arithmetic, time zones and getters: host behaviour; steps use an `advance` parameter and labels a `DateFields` record.
- TimeSteps.GenerateSteps: requires that the start is past the end or that `advance` moves time forward. In the source the loop runs forever when a step leaves the date unchanged: `stepValue` 0, or `0 < stepValue < 1`, which the `Date` setters truncate (`setMinutes(47.5)` sets 47). A negative step runs the dates backwards until they leave the `Date` range; the date then becomes invalid, `current <= end` is false, and the loop ends. Timestamps here are unbounded, so neither case is modelled.
- TimeSteps.GenerateSteps: `stepValue` is an integer, so fractional step values are not modelled; in the source a step of 1.5 advances by 1, because of the same truncation.
- TimeFormat.NatString: numbers are integers; the exponent notation JavaScript's `String` uses from 1e21 on (`"1e+21"`) and non-integer numbers are not modelled. `zeroPad` only receives date-getter values (a year of at most six digits, every other field below 100), so no label changes.
- TimeFormat.DecimalString: the same; `String` of a number is modelled only for integers written without exponent notation.
- TimeIndex.CalculateIndex: requires a positive gauge width. For width 0 the source divides by zero: a click right of the gauge gives `+Infinity` and index `dataLength - 1`, one left of it gives `-Infinity` and index 0, and a click exactly on it gives `NaN`. None of these are modelled. JavaScript floating-point rounding is modelled by exact reals.
- TimeIndex.Fraction: requires the same positive gauge width, for the same reason.
- TimeIndex.CalculateIndexCell: requires the same positive gauge width, for the same reason.
- TimeIndex.CalculateIndexMonotone: requires the same positive gauge width, for the same reason.
- TimeSliderComponent.Slider.HandleClick: requires the same positive gauge width, for the same reason.
- TimeSliderComponent.Slider.Tick: requires `isRun`, because the interval exists only while the slider runs; `setInterval`, `clearInterval`, the effect clean-up and `animationSpeed` timing are not modelled.
- The `onChange` callback and selected-guide effect (`TimeSlider.tsx:80-100`), hover messages, `getRectMetrics`, `calculateClickX` and all DOM reads and writes: presentation and host I/O.
- `stepWidthPercentage` and played-width percentages: layout arithmetic only.
- Tree rendering and drag and drop (`TreeNode.tsx`, `FolderTree.tsx`), including the drop guards of `TreeNode.tsx:85-87`: presentation; the reducer below them is modelled.
- Class-name tables, the Select, MapLegend, Button and ButtonGroup components, stories other than the five-step example, and build scripts: presentation or tooling.
