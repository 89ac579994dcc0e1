# To-do list operations, modelled in Dafny

This project models the list logic of a single-screen React Native to-do app
(`App.tsx`). A task (`Todo`) has a string id, a text, a `completed` flag and one
of three categories: `casa` (home), `trabalho` (work) or `outros` (other). Each
user action builds a new task list from the current one:

- **add** (`addTodo`): refuses text that is blank after trimming. Otherwise it
  reads the stored snapshot and scans it for the largest numeric id. It then
  appends to the in-memory list one pending task whose id is that maximum plus
  one, with the trimmed text and the selected category.
- **toggle** (`toggleTodo`): maps over the list and flips `completed` on every
  task with the given id.
- **delete** (`deleteTodo`): filters out the tasks with the given id.
- **clear completed** and **clear all**: the confirmed branches. They keep only
  the unfinished tasks, or nothing at all.
- **seed** (`initialTodos`): builds one pending `outros` task for each of three
  fetched titles, with ids "1", "2" and "3", and appends them. These ids are
  fixed and are assigned without looking at the ids already in the list, so
  seeding a list that already holds one of them duplicates that id. At
  startup the list passed in is the still-empty one captured when the screen
  mounted (App.tsx:37, 46-47, 66).
- **category colours** (`getCategoryColor`): the background, border and text
  colour of each category.

Modules:

- `Wrappers` (wrappers.dfy): an `Option` type. It stands for a missing storage
  key, an id that is not a number, or a failed fetch.
- `Text` (text.dfy): JavaScript's `trim`.
- `Decimal` (decimal.dfy): reading an id as a number (`Number(td.id)`) and
  writing a number as an id (`String(n)`).
- `Lists` (lists.dfy): `Array.prototype.map` and `Array.prototype.filter`.
- `TodoApp` (todo_app.dfy): the entities and the operations.

The two operations that loop in the source are methods with loop invariants:
the id scan of `addTodo`, and the loop of `initialTodos` that pushes into an
array. The other operations are functions, and lemmas state what they do.

`addTodo` reads ids from the stored snapshot but appends to the in-memory
list, so `AddTodo` takes the two as separate inputs. The proof that adding
keeps ids unique (`AddKeepsUniqueIds`) assumes the snapshot is the in-memory
list. That holds after every successful save.

When a seed fetch fails, the entries already built are discarded. They are
pushed into a local array (App.tsx:54-64), and the list is set only after all
three fetches succeed (App.tsx:66-68). So on a failure, `InitialTodos` leaves
the list unchanged.

## Model

| member | source | states |
|---|---|---|
| Text.Trim | App.tsx:145 | The trimmed text is the slice of the input that begins after the leading blanks. Everything outside it is whitespace, and it neither starts nor ends with whitespace. |
| Text.BlankIffAllWhitespace | App.tsx:121 | The input trims to the empty string exactly when every character of it is whitespace. |
| Text.TrimIdempotent | App.tsx:145 | Trimming an already trimmed text changes nothing. |
| Decimal.NumberOf | App.tsx:137 | An id reads as a number exactly when it is a non-empty string of decimal digits. |
| Decimal.NatToString | App.tsx:144 | `String(n)` is a canonical numeral (no leading zero), and it has one digit exactly when n < 10. |
| Decimal.NumberOfNatToString | App.tsx:144 | Reading back the id written for n gives n. |
| Decimal.NatToStringInjective | App.tsx:144 | Distinct numbers are written as distinct ids. |
| Decimal.NatToStringValueOf | App.tsx:137-144 | Writing back the number read from a canonical numeral gives that numeral, so writing and reading are inverse bijections. |
| Decimal.ValueOf | App.tsx:137 | The number a digit string reads as. A string of k digits stands for less than 10^k. The round-trip lemmas fix its value on canonical numerals, and `ValueOfLeadingZero` extends that to numerals with leading zeros. |
| Decimal.ValueOfLeadingZero | App.tsx:137 | A leading zero does not change the value a digit string reads as, so "007" reads as 7, as `Number` reads it. |
| Decimal.ValueAtLeast | App.tsx:137 | A canonical numeral of two or more digits stands for at least 10, and one of more than one digit is never 0. |
| Lists.Map | App.tsx:157 | `map` keeps the length. |
| Lists.MapAt | App.tsx:157-159 | Element i of the mapped list is f applied to element i. |
| Lists.MapIdentity | App.tsx:157-159 | Mapping with a function that fixes every element changes nothing. |
| Lists.MapInvolution | App.tsx:157-159 | Mapping twice with a self-inverse function restores the list. |
| Lists.Filter | App.tsx:165 | `filter` never lengthens the list, and every survivor passes the test. |
| Lists.FilterMembership | App.tsx:165 | An element survives exactly when it was in the list and passes the test. |
| Lists.FilterConcat | App.tsx:183 | Filtering distributes over concatenation, so the survivors keep their relative order. |
| Lists.FilterKeepsAll | App.tsx:165 | A list all of whose elements pass comes through unchanged. |
| Lists.FilterIdempotent | App.tsx:183 | Filtering twice with the same test equals filtering once. |
| Lists.FilterComplement | App.tsx:165 | The lists filtered by complementary tests have lengths that add up to the original length. |
| TodoApp.CategoryColor | App.tsx:97-118 | Every category has a well-formed "#RRGGBB" background, border and text colour. |
| TodoApp.CategoryColorInjective | App.tsx:97-118 | Distinct categories differ in each of the three colours. |
| TodoApp.MaxNumericId | App.tsx:133-141 | No numeric id of the scanned list exceeds the scan's result. With `MaxNumericIdIsAttained`, this makes it the running maximum from 0. |
| TodoApp.MaxNumericIdIsAttained | App.tsx:133-141 | The scan's result is 0 or the value of some numeric id in the list. |
| TodoApp.NextId | App.tsx:144 | The number the new id is built from is at least 1. |
| TodoApp.NextIdIsMaxPlusOne | App.tsx:133-144 | The next id is above every numeric stored id, and it is 1 or one more than some stored id. Together these make it exactly the maximum plus one. |
| TodoApp.NextIdWithinSafeRange | App.tsx:137-144 | While every numeric stored id is below 2^53, the next id is at most 2^53, where the source's double arithmetic is exact and agrees with this model. |
| TodoApp.NextIdWithoutNumericIds | App.tsx:129-144 | With no stored list, or no numeric id in it, the new id is "1". |
| TodoApp.IsBlank | App.tsx:121-124 | `addTodo` refuses exactly the inputs made only of whitespace. |
| TodoApp.NewEntry | App.tsx:143-148 | The appended entry's id reads back as the next id. Its text is the trimmed input, it is not completed, and its category is the selected one. |
| TodoApp.NewEntryIsFresh | App.tsx:143-148 | The new entry's id differs from every id in the stored list. |
| TodoApp.AddTodo | App.tsx:120-154 | Blank input is refused and the list comes back unchanged. Otherwise the old list comes back with exactly one entry appended at the end: the next id, the trimmed text, not completed, and the selected category. |
| TodoApp.AddKeepsUniqueIds | App.tsx:143-150 | When the snapshot is the in-memory list, appending the new entry keeps ids unique. |
| TodoApp.Toggle | App.tsx:157-159 | Toggle keeps the length. `ToggleAt`, `ToggleTwice` and `ToggleAbsent` give the rest. |
| TodoApp.ToggleAt | App.tsx:157-159 | At each position, toggle flips only `completed` on an entry with the id and leaves every other entry as it was, in place. |
| TodoApp.ToggleTwice | App.tsx:157-159 | Toggling the same id twice restores the list. |
| TodoApp.ToggleAbsent | App.tsx:157-159 | Toggling an id that no entry has leaves the list unchanged. |
| TodoApp.ToggleKeepsUniqueIds | App.tsx:157-159 | Toggle keeps ids unique. |
| TodoApp.Delete | App.tsx:165 | Delete never lengthens the list, and no remaining entry has the id. `DeleteMembership` and `DeleteKeepsOrder` give the rest. |
| TodoApp.DeleteMembership | App.tsx:165 | An entry remains after a delete exactly when it was in the list with a different id. |
| TodoApp.DeleteKeepsOrder | App.tsx:165 | Delete works piecewise over concatenation, so the remaining entries keep their order. |
| TodoApp.DeleteAbsent | App.tsx:165 | Deleting an id that no entry has leaves the list unchanged. |
| TodoApp.DeleteLength | App.tsx:165 | Delete removes as many entries as carry the id. |
| TodoApp.UniqueIdOccursOnce | App.tsx:165 | With unique ids, a present id is carried by exactly one entry. |
| TodoApp.DeleteUniqueRemovesOne | App.tsx:165 | With unique ids, deleting a present id removes exactly one entry. |
| TodoApp.FilterKeepsUniqueIds | App.tsx:165 | Filtering a list with unique ids gives a list with unique ids. |
| TodoApp.DeleteKeepsUniqueIds | App.tsx:165 | Delete keeps ids unique. |
| TodoApp.ClearCompleted | App.tsx:183 | Clear completed never lengthens the list, and no remaining entry is completed. `ClearCompletedMembership` and `ClearCompletedKeepsOrder` give the rest. |
| TodoApp.ClearCompletedMembership | App.tsx:183 | An entry remains after clear completed exactly when it was in the list and unfinished. |
| TodoApp.ClearCompletedKeepsOrder | App.tsx:183 | Clear completed works piecewise, so the remaining entries keep their order. |
| TodoApp.ClearCompletedIdempotent | App.tsx:183 | Clearing completed entries a second time changes nothing. |
| TodoApp.ClearCompletedKeepsUniqueIds | App.tsx:183 | Clear completed keeps ids unique. |
| TodoApp.ClearAll | App.tsx:205-206 | Clear all yields the empty list whatever the input. |
| TodoApp.InitialTodos | App.tsx:51-74 | Seeding succeeds exactly when all three fetches succeed. On success, the old list comes back followed by three pending `outros` entries with the fetched titles and the ids "1", "2" and "3", in that order. On failure, the list is unchanged. The result has unique ids when the old list had unique ids and none of "1", "2" or "3". |

## Left out

- Local storage (AsyncStorage) and JSON parsing and serialising. The stored
  snapshot that `addTodo` reads is an input (`None` when the key is missing);
  `loadTodos` and `saveTodos` are not modelled.
- Network access. Each of the three fetched titles is an input (`None` when the
  fetch or its decoding fails). The endpoint URL is not modelled, and neither is
  a record whose `title` field is missing.
- Alerts and the confirmation dialogs. Only the confirmed ("Sim") branches of
  clear completed and clear all are modelled. The "Cancelar" branch changes
  nothing.
- React state (`useState`, `setTodos`) and the mount effect. The effect checks
  the captured, still-empty list, so it always seeds and can race with
  `loadTodos`. This is asynchronous framework ordering, not list logic.
- Rendering, the category modal, label capitalisation and the style sheet,
  which are presentation only. `getCategoryColor` is modelled, but not where
  its colours are used.
- Decimal.NumberOf: only non-empty decimal digit strings count as numeric ids.
  JavaScript's `Number` also accepts whitespace-padded, signed, fractional,
  exponent, hexadecimal and "Infinity" strings. Of these, "" reads as 0 and
  negative values never raise the running maximum (which starts at 0), so they
  do not change the result. The others (for example an id "2.5") are not
  modelled.
- Decimal.NumberOf: numeric values are exact naturals here. The source
  computes with IEEE-754 doubles, which round every integer above 2^53 to the
  nearest representable value.
- TodoApp.NextId: stays exact for every input. In the source, `lastTodo + 1`
  stops increasing at 2^53, so a stored id "9007199254740992" yields that same
  id again. The model and the source agree while every numeric stored id is
  below 2^53 (`NextIdWithinSafeRange`).
- TodoApp.NewEntryIsFresh: the freshness it proves holds for the source only
  while every numeric stored id is below 2^53.
- TodoApp.AddKeepsUniqueIds: the uniqueness it proves holds for the source only
  while every numeric stored id is below 2^53.
- Decimal.NatToString: writes every natural exactly, in positional notation.
  JavaScript's `String` of a double is only exact up to 2^53, and it switches
  to exponent notation from 10^21 on.
- JavaScript strings are sequences of UTF-16 code units. Here a string is a
  sequence of Unicode scalar values. This does not change whether a trimmed
  text is empty.
