# Task editor: loading and saving an edited task

This project models the edit screen of a task-manager mobile app
(`app/task/edit.tsx`) with its React state, storage and navigation
stripped away. What is left is a small data operation:

- **Load.** The screen reads the stored task collection. If a task carries the
  route id, the draft becomes the first such task.
- **Edit.** Each input writes one field of the draft: title, description,
  location, or one of the three status labels `In Progress`, `Completed` and
  `Cancelled`.
- **Save.** A draft that is missing, or whose title, description or location
  trims to nothing, is rejected. Without a stored collection nothing is
  written. Otherwise every stored task whose id is the route id is replaced
  by the draft. The replacement's `date` becomes the picked date-time as
  `toISOString().slice(0, 16).replace('T', ' ')`, which is `yyyy-MM-dd HH:mm`.

Modules:

- `Wrappers` (`wrappers.dfy`): `Option`. It stands for JavaScript `null`, both
  for a missing stored value and for a draft that is not loaded yet.
- `Text` (`text.dfy`): the JavaScript string operations the screen uses.
  These are `trim` (over ECMAScript's WhiteSpace and LineTerminator
  characters), `slice(0, n)`, and `replace` with a one-character pattern,
  which replaces the first occurrence only.
- `DateStamp` (`date_stamp.dfy`): the minute stamp of an ISO timestamp,
  the shape of both strings, and an inverse `ToIso` with round-trip lemmas.
- `Tasks` (`tasks.dfy`): `Status` with its labels, the `Task` record, and the
  single-field edits the inputs make.
- `TaskEditor` (`task_editor.dfy`): find-by-id, the load effect, the
  replace-by-id map, `Save` with its three outcomes (`Rejected`, `NoWrite`,
  `Written`), and the lemmas that relate them.

An edit is naturally read as "replace the one task with this id and keep its
id". The code differs from that reading in two places, and the model follows
the code:

- The code maps over the whole collection, so every record carrying the id
  is replaced, duplicates included.
- The code writes the draft's
  own fields (`{ ...task, date }`), so the written record carries the
  draft's id, not the route id. The two agree whenever the draft came from
  `Load`, because edits never touch the id. `SavePreservesIds` and
  `EditSession` state that condition.

## Model

| member | source | states |
|---|---|---|
| `Text.TrimStart` | app/task/edit.tsx:42 | the result is the input with exactly its leading whitespace removed |
| `Text.TrimEnd` | app/task/edit.tsx:42 | the result is a prefix of the input, the removed tail is all whitespace, and the result does not end in whitespace |
| `Text.Trim` | app/task/edit.tsx:42 | `trim` returns the contiguous middle of the string; whitespace lies on both sides of it, and it neither starts nor ends with whitespace |
| `Text.BlankIffAllWhitespace` | app/task/edit.tsx:42 | `!s.trim()` holds exactly when every character of `s` is whitespace (both directions) |
| `Text.TrimIdempotent` | app/task/edit.tsx:42 | trimming an already trimmed string changes nothing |
| `Text.Take` | app/task/edit.tsx:51 | `slice(0, n)` is a prefix of length `min(n, length)` |
| `Text.ReplaceFirst` | app/task/edit.tsx:51 | `replace('T', ' ')` keeps the length; it changes only the first `T`, and changes nothing when there is no `T` |
| `DateStamp.Stamp` | app/task/edit.tsx:51 | the stored date string is at most 16 characters long, and exactly 16 for any input of 16 or more |
| `DateStamp.StampExample` | app/task/edit.tsx:96 | the shown/stored form of `2024-01-31T09:05:59.999Z` is `2024-01-31 09:05` |
| `DateStamp.StampOfIso` | app/task/edit.tsx:51 | on an ISO timestamp the stamp has the shape `yyyy-MM-dd HH:mm`; it keeps the date, hour and minute, and the `T` becomes a space |
| `DateStamp.StampToIsoRoundTrip` | app/task/edit.tsx:51 | every `yyyy-MM-dd HH:mm` string is the stamp of an ISO timestamp (stamp after `ToIso` is the identity) |
| `DateStamp.IsoToStampRoundTrip` | app/task/edit.tsx:51 | stamping loses only the seconds: an ISO timestamp at second zero is recovered from its stamp |
| `Tasks.ParseStatus` | app/task/edit.tsx:15 | a label parses to the status whose label it is; any other text is no status |
| `Tasks.LabelRoundTrip` | app/task/edit.tsx:15 | every status survives being written as its label and read back |
| `Tasks.StatusOptionsComplete` | app/task/edit.tsx:64 | the badge list offers every status, and no two badges share a label |
| `Tasks.ApplyEdit` | app/task/edit.tsx:72-126 | a setter stores the value as typed in its one field and keeps every other field, id and date included |
| `Tasks.ApplyEdits` | app/task/edit.tsx:72-126 | no sequence of edits changes the draft's id or date |
| `Tasks.EditsOfDifferentFieldsCommute` | app/task/edit.tsx:72-126 | edits to different fields can be made in either order |
| `Tasks.LaterEditWins` | app/task/edit.tsx:72-126 | of two edits to the same field, the later one decides the value |
| `Tasks.EditAlreadyReflectedIsNoOp` | app/task/edit.tsx:72-126 | re-entering a field's current value leaves the draft unchanged |
| `Tasks.LastEditOfFieldWins` | app/task/edit.tsx:72-126 | after a run of edits, a field holds the value of the last edit that wrote it |
| `Tasks.UntouchedFieldKept` | app/task/edit.tsx:72-126 | a field that no edit writes keeps its original value |
| `TaskEditor.FindById` | app/task/edit.tsx:31 | `find` returns nothing exactly when no record carries the id; otherwise it returns the record at the first position that carries it |
| `TaskEditor.Load` | app/task/edit.tsx:26-39 | with no stored collection, or no matching record, the draft is kept; otherwise the draft becomes the first matching record |
| `TaskEditor.LoadedDraftHasRouteId` | app/task/edit.tsx:31-33 | loading either keeps the previous draft or sets a draft that carries the route id |
| `TaskEditor.ReplaceById` | app/task/edit.tsx:50-52 | the map keeps the length; each position holds the replacement if its id matches and the original record otherwise |
| `TaskEditor.Replacement` | app/task/edit.tsx:51 | the written record is the draft as typed, untrimmed, and differs from it only in `date`, which is the stamp of the picked date-time |
| `TaskEditor.Save` | app/task/edit.tsx:41-53 | rejected exactly when the draft is missing or a required field is all whitespace; no write exactly when it is not rejected and nothing is stored; otherwise a collection of the same length where matching records (duplicates included) become the replacement and all others are unchanged |
| `TaskEditor.SavePreservesIds` | app/task/edit.tsx:50-52 | when the draft carries the route id and a collection is stored, save is rejected or writes a collection whose ids equal the stored ids, in order |
| `TaskEditor.SaveThenLoad` | app/task/edit.tsx:26-53 | reloading the route id from the written collection yields the saved draft with its new date |
| `TaskEditor.SaveIdempotent` | app/task/edit.tsx:41-53 | saving the same draft and date a second time writes the same collection |
| `TaskEditor.SaveUnknownIdWritesBackUnchanged` | app/task/edit.tsx:47-53 | when no stored record carries the id, save is rejected or writes the collection back unchanged |
| `TaskEditor.SaveKeepsFieldsFilled` | app/task/edit.tsx:42-51 | if no stored record has a blank required field, no written record has one |
| `TaskEditor.SaveKeepsIdsUnique` | app/task/edit.tsx:50-52 | when the draft carries the route id, unique stored ids stay unique |
| `TaskEditor.SavedDateHasStampShape` | app/task/edit.tsx:51 | given an ISO timestamp, every replaced record's date has the shape `yyyy-MM-dd HH:mm` |
| `TaskEditor.EditSession` | app/task/edit.tsx:26-126 | load, edit, save: the result is rejected or written, never "no write"; a written collection keeps the stored ids in order, and reading the id back gives the edited draft with the new date |

## Left out

- Storage and JSON: `AsyncStorage.getItem` / `setItem` and
  `JSON.parse` / `JSON.stringify` (lines 28-30, 47-53) are I/O. The stored
  value is modelled as the parsed `Option<seq<Task>>`. An empty stored string
  is falsy in JavaScript, so it counts as `None`. A malformed stored value
  makes `JSON.parse` throw, and the screen does not catch it. A well-formed
  value that is not an array (for example `null`) makes `all.find` (line 31)
  or `all.map` (line 50) throw a `TypeError`. Neither path is modelled; the
  app's only writer of "tasks" stores an array.
- Dates: the `Date` state, `new Date(found.date)` on load (line 34), the
  date-time picker (lines 99-108) and `toISOString` depend on the platform
  clock and time zone. The ISO timestamp is an input to `Save`. One
  consequence stays unmodelled. A space-separated `"yyyy-MM-dd HH:mm"` is not
  in ECMAScript's Date Time String Format. Engines that accept it parse it as
  local time, while `toISOString` prints UTC. So on those engines, outside
  UTC, saving without touching the date shifts the stored time by the zone
  offset. Proving that would need calendar arithmetic and a time-zone model.
- Invalid dates: an engine may instead turn the stored date into an Invalid
  Date at line 34. `toISOString` then throws a `RangeError` when the screen
  renders (line 96) and again in `handleSave` (line 51), before anything is
  written. `Save` takes the ISO string as an input and cannot represent that
  crash. The model covers only runs where `toISOString` returns a string.
- DateStamp.StampOfIso: covers only the 24-character `toISOString` form
  (years 0000 to 9999). For years outside that range `toISOString` prints a
  signed six-digit year, and the stamp is then not `yyyy-MM-dd HH:mm`.
  `Stamp` itself is defined on every string.
- Characters: JavaScript strings are UTF-16 code units, and the model uses
  Dafny characters. ISO timestamps are ASCII and every character `trim`
  removes lies in the Basic Multilingual Plane, so the two agree on what is
  modelled.
- Route parameter: `useLocalSearchParams` can yield an array of strings.
  Such an id equals no task id. The model takes the id as a string.
- UI effects: `Alert`, `Toast`, `router.back()`, the "Loading..." view and
  all rendering and styles (lines 43, 54-60, 66-173). The setters can only
  fire once a draft is loaded, so `ApplyEdit` takes a `Task`, not an
  `Option`. The success toast appears even when no record carried the id;
  `SaveUnknownIdWritesBackUnchanged` states what is written in that case.
- `app/select-location.tsx` (location permissions, GPS, map picking) and
  `components/App.tsx` (a provider wrapper) are not part of this model.
- The app's other screens are not part of this model: adding, deleting,
  sorting and filtering tasks, the detail view, the calendar grouping, and
  the profile statistics (XP, levels, weekly histogram).
