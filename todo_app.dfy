/** The list operations of the to-do screen (App.tsx). Each user action
    computes a new task list from the old one; the React state update and
    the write to local storage that follow each computation are not part of
    this model. */
module TodoApp {
  import opened Wrappers
  import opened Text
  import opened Decimal
  import opened Lists

  /** The three fixed categories: home, work and other. */
  datatype Category = Casa | Trabalho | Outros

  datatype Todo = Todo(id: string, text: string, completed: bool, category: Category)

  datatype CategoryColors = CategoryColors(background: string, border: string, text: string)

  // ---------------------------------------------------------------- colours

  predicate IsHexDigit(c: char) {
    '0' <= c <= '9' || 'A' <= c <= 'F'
  }

  /** A colour written as "#RRGGBB" with upper-case hex digits. */
  predicate IsHexColor(s: string) {
    |s| == 7 && s[0] == '#' && forall i :: 1 <= i < 7 ==> IsHexDigit(s[i])
  }

  /** The card colours of a category: every category gets a well-formed
      background, border and text colour. */
  function CategoryColor(category: Category): (r: CategoryColors)
    ensures IsHexColor(r.background) && IsHexColor(r.border) && IsHexColor(r.text)
  {
    match category
    case Casa => CategoryColors("#E8F5E9", "#4CAF50", "#2E7D32")
    case Trabalho => CategoryColors("#E3F2FD", "#2196F3", "#1565C0")
    case Outros => CategoryColors("#FFF3E0", "#FF9800", "#E65100")
  }

  /** Distinct categories are told apart by each of the three colours. */
  lemma CategoryColorInjective(a: Category, b: Category)
    requires a != b
    ensures CategoryColor(a).background != CategoryColor(b).background
    ensures CategoryColor(a).border != CategoryColor(b).border
    ensures CategoryColor(a).text != CategoryColor(b).text
  {
  }

  // ---------------------------------------------------------------- ids

  /** No two entries of the list share an id. */
  predicate UniqueIds(todos: seq<Todo>) {
    forall i, j :: 0 <= i < j < |todos| ==> todos[i].id != todos[j].id
  }

  /** The stored snapshot, read as a list; a missing snapshot reads as empty. */
  function StoredList(stored: Option<seq<Todo>>): seq<Todo> {
    match stored
    case None => []
    case Some(s) => s
  }

  /** The value of `lastTodo` after the scan of the stored list: the running
      maximum, starting from 0, of the ids that read as numbers. No numeric id
      of the list exceeds it. */
  function MaxNumericId(s: seq<Todo>): (m: nat)
    ensures forall i :: 0 <= i < |s| && NumberOf(s[i].id).Some? ==> NumberOf(s[i].id).value <= m
  {
    if s == [] then 0
    else
      var p := s[..|s| - 1];
      assert forall i :: 0 <= i < |p| ==> p[i] == s[i];
      var m := MaxNumericId(p);
      match NumberOf(s[|s| - 1].id)
      case Some(n) => if m < n then n else m
      case None => m
  }

  /** `MaxNumericId` is 0 or the value of some numeric id of the list. */
  lemma {:induction false} MaxNumericIdIsAttained(s: seq<Todo>)
    ensures MaxNumericId(s) == 0 ||
      exists i :: 0 <= i < |s| && NumberOf(s[i].id) == Some(MaxNumericId(s))
  {
    if s != [] {
      var p := s[..|s| - 1];
      MaxNumericIdIsAttained(p);
      if MaxNumericId(s) == MaxNumericId(p) && MaxNumericId(p) != 0 {
        var i :| 0 <= i < |p| && NumberOf(p[i].id) == Some(MaxNumericId(p));
        assert p[i] == s[i];
      }
    }
  }

  /** The number the next task's id is made from. */
  function NextId(stored: Option<seq<Todo>>): (n: nat)
    ensures n >= 1
  {
    MaxNumericId(StoredList(stored)) + 1
  }

  /** The next id is strictly above every numeric id of the stored list, and
      one above either 0 or one of them: it is exactly the maximum plus one. */
  lemma NextIdIsMaxPlusOne(stored: Option<seq<Todo>>)
    ensures forall t :: t in StoredList(stored) && NumberOf(t.id).Some? ==>
      NumberOf(t.id).value < NextId(stored)
    ensures NextId(stored) == 1 ||
      exists t :: t in StoredList(stored) && NumberOf(t.id) == Some(NextId(stored) - 1)
  {
    var s := StoredList(stored);
    MaxNumericIdIsAttained(s);
    if MaxNumericId(s) != 0 {
      var i :| 0 <= i < |s| && NumberOf(s[i].id) == Some(MaxNumericId(s));
      assert s[i] in s;
    }
  }

  /** `Number` and `+` act on IEEE-754 doubles, which hold every natural up to
      2^53 exactly. */
  const MaxSafeInteger: nat := 0x20_0000_0000_0000

  /** While every numeric stored id is below 2^53, the next id is at most
      2^53, so the double arithmetic of the scan and of `lastTodo + 1` is
      exact and agrees with `NextId`. */
  lemma NextIdWithinSafeRange(stored: Option<seq<Todo>>)
    requires forall t :: t in StoredList(stored) && NumberOf(t.id).Some? ==>
      NumberOf(t.id).value < MaxSafeInteger
    ensures NextId(stored) <= MaxSafeInteger
  {
    var s := StoredList(stored);
    MaxNumericIdIsAttained(s);
    if MaxNumericId(s) != 0 {
      var i :| 0 <= i < |s| && NumberOf(s[i].id) == Some(MaxNumericId(s));
      assert s[i] in s;
    }
  }

  /** With no stored list, or with no numeric id in it, the new id is "1". */
  lemma NextIdWithoutNumericIds(stored: Option<seq<Todo>>)
    requires forall t :: t in StoredList(stored) ==> NumberOf(t.id).None?
    ensures NatToString(NextId(stored)) == "1"
  {
    NextIdIsMaxPlusOne(stored);
  }

  // ---------------------------------------------------------------- add

  /** Input that `addTodo` refuses: nothing left after trimming, which is
      input made only of whitespace. */
  predicate IsBlank(inputText: string)
    ensures IsBlank(inputText) <==>
      forall i :: 0 <= i < |inputText| ==> IsWhitespace(inputText[i])
  {
    BlankIffAllWhitespace(inputText);
    |Trim(inputText)| == 0
  }

  /** The entry `addTodo` appends for non-blank input. */
  function NewEntry(stored: Option<seq<Todo>>, inputText: string, selected: Category): (t: Todo)
    ensures NumberOf(t.id) == Some(NextId(stored))
    ensures t.text == Trim(inputText) && !t.completed && t.category == selected
  {
    NumberOfNatToString(NextId(stored));
    Todo(NatToString(NextId(stored)), Trim(inputText), false, selected)
  }

  /** The new entry's id differs from every id of the stored list: it reads
      back as a number above all of theirs. */
  lemma NewEntryIsFresh(stored: Option<seq<Todo>>, inputText: string, selected: Category)
    ensures forall t :: t in StoredList(stored) ==> t.id != NewEntry(stored, inputText, selected).id
  {
    NumberOfNatToString(NextId(stored));
    NextIdIsMaxPlusOne(stored);
  }

  /** `addTodo`: refuse blank input and leave the list alone; otherwise scan
      the stored snapshot for the largest numeric id and append to the
      in-memory list `todos` one pending entry with the next id, the trimmed
      text and the selected category. `stored` is the snapshot read back from
      storage (`None` when the key is missing). */
  method AddTodo(todos: seq<Todo>, stored: Option<seq<Todo>>, inputText: string, selected: Category)
    returns (accepted: bool, updated: seq<Todo>)
    ensures accepted <==> !IsBlank(inputText)
    ensures !accepted ==> updated == todos
    ensures accepted ==> |updated| == |todos| + 1 && updated[..|todos|] == todos
    ensures accepted ==> updated[|todos|] == NewEntry(stored, inputText, selected)
  {
    var text := Trim(inputText);
    if |text| == 0 {
      return false, todos;
    }
    var lastTodo: nat := 0;
    if stored.Some? {
      var s := stored.value;
      for k := 0 to |s|
        invariant lastTodo == MaxNumericId(s[..k])
      {
        assert s[..k + 1][..k] == s[..k];
        match NumberOf(s[k].id)
        case Some(n) =>
          if lastTodo < n {
            lastTodo := n;
          }
        case None =>
      }
      assert s[..|s|] == s;
    }
    var newTodo := Todo(NatToString(lastTodo + 1), text, false, selected);
    accepted, updated := true, todos + [newTodo];
  }

  /** When the stored snapshot mirrors the in-memory list, as it does after
      every save, adding keeps ids unique. */
  lemma AddKeepsUniqueIds(todos: seq<Todo>, inputText: string, selected: Category)
    requires UniqueIds(todos)
    ensures UniqueIds(todos + [NewEntry(Some(todos), inputText, selected)])
  {
    NewEntryIsFresh(Some(todos), inputText, selected);
    var r := todos + [NewEntry(Some(todos), inputText, selected)];
    forall i, j | 0 <= i < j < |r| ensures r[i].id != r[j].id {
      if j == |todos| {
        assert r[i] in todos;
      }
    }
  }

  // ---------------------------------------------------------------- toggle

  /** Flips `completed` on an entry with the given id; other entries pass. */
  function FlipIfId(id: string): Todo -> Todo {
    (t: Todo) => if t.id == id then t.(completed := !t.completed) else t
  }

  /** `toggleTodo`. */
  function Toggle(todos: seq<Todo>, id: string): (r: seq<Todo>)
    ensures |r| == |todos|
  {
    Map(todos, FlipIfId(id))
  }

  /** At every position whose id matches, toggling flips only `completed`;
      every other entry is kept where it was. */
  lemma ToggleAt(todos: seq<Todo>, id: string, i: nat)
    requires i < |todos|
    ensures todos[i].id == id ==>
      Toggle(todos, id)[i] == todos[i].(completed := !todos[i].completed)
    ensures todos[i].id != id ==> Toggle(todos, id)[i] == todos[i]
  {
    MapAt(todos, FlipIfId(id), i);
  }

  /** Toggling the same id twice restores the list. */
  lemma ToggleTwice(todos: seq<Todo>, id: string)
    ensures Toggle(Toggle(todos, id), id) == todos
  {
    MapInvolution(todos, FlipIfId(id));
  }

  /** Toggling an id that no entry has leaves the list unchanged. */
  lemma ToggleAbsent(todos: seq<Todo>, id: string)
    requires forall i :: 0 <= i < |todos| ==> todos[i].id != id
    ensures Toggle(todos, id) == todos
  {
    MapIdentity(todos, FlipIfId(id));
  }

  /** Toggling keeps ids unique. */
  lemma ToggleKeepsUniqueIds(todos: seq<Todo>, id: string)
    requires UniqueIds(todos)
    ensures UniqueIds(Toggle(todos, id))
  {
    forall i | 0 <= i < |todos| ensures Toggle(todos, id)[i].id == todos[i].id {
      ToggleAt(todos, id, i);
    }
  }

  // ---------------------------------------------------------------- delete

  function HasId(id: string): Todo -> bool {
    (t: Todo) => t.id == id
  }

  function LacksId(id: string): Todo -> bool {
    (t: Todo) => t.id != id
  }

  /** `deleteTodo`. */
  function Delete(todos: seq<Todo>, id: string): (r: seq<Todo>)
    ensures |r| <= |todos|
    ensures forall i :: 0 <= i < |r| ==> r[i].id != id
  {
    Filter(todos, LacksId(id))
  }

  /** An entry is left after deleting exactly when it was there with another
      id. */
  lemma DeleteMembership(todos: seq<Todo>, id: string, t: Todo)
    ensures t in Delete(todos, id) <==> t in todos && t.id != id
  {
    FilterMembership(todos, LacksId(id), t);
  }

  /** Deleting works piecewise, so the remaining entries keep their order. */
  lemma DeleteKeepsOrder(a: seq<Todo>, b: seq<Todo>, id: string)
    ensures Delete(a + b, id) == Delete(a, id) + Delete(b, id)
  {
    FilterConcat(a, b, LacksId(id));
  }

  /** Deleting an id that no entry has leaves the list unchanged. */
  lemma DeleteAbsent(todos: seq<Todo>, id: string)
    requires forall i :: 0 <= i < |todos| ==> todos[i].id != id
    ensures Delete(todos, id) == todos
  {
    FilterKeepsAll(todos, LacksId(id));
  }

  /** Deleting removes as many entries as carry the id. */
  lemma DeleteLength(todos: seq<Todo>, id: string)
    ensures |Delete(todos, id)| == |todos| - |Filter(todos, HasId(id))|
  {
    FilterComplement(todos, LacksId(id), HasId(id));
  }

  /** With unique ids, deleting an id that is present removes one entry. */
  lemma DeleteUniqueRemovesOne(todos: seq<Todo>, id: string)
    requires UniqueIds(todos)
    requires exists i :: 0 <= i < |todos| && todos[i].id == id
    ensures |Delete(todos, id)| == |todos| - 1
  {
    DeleteLength(todos, id);
    UniqueIdOccursOnce(todos, id);
  }

  lemma {:induction false} UniqueIdOccursOnce(todos: seq<Todo>, id: string)
    requires UniqueIds(todos)
    requires exists i :: 0 <= i < |todos| && todos[i].id == id
    ensures |Filter(todos, HasId(id))| == 1
  {
    var rest := todos[1..];
    assert UniqueIds(rest) by {
      forall i, j | 0 <= i < j < |rest| ensures rest[i].id != rest[j].id {
        assert rest[i] == todos[i + 1] && rest[j] == todos[j + 1];
      }
    }
    if todos[0].id == id {
      forall i | 0 <= i < |rest| ensures rest[i].id != id {
        assert rest[i] == todos[i + 1];
      }
      DeleteAbsent(rest, id);
      DeleteLength(rest, id);
    } else {
      var i :| 0 <= i < |todos| && todos[i].id == id;
      assert rest[i - 1] == todos[i];
      UniqueIdOccursOnce(rest, id);
    }
  }

  /** A filtered list of entries with unique ids has unique ids. */
  lemma {:induction false} FilterKeepsUniqueIds(todos: seq<Todo>, p: Todo -> bool)
    requires UniqueIds(todos)
    ensures UniqueIds(Filter(todos, p))
  {
    if todos != [] {
      var rest := todos[1..];
      assert UniqueIds(rest) by {
        forall i, j | 0 <= i < j < |rest| ensures rest[i].id != rest[j].id {
          assert rest[i] == todos[i + 1] && rest[j] == todos[j + 1];
        }
      }
      FilterKeepsUniqueIds(rest, p);
      if p(todos[0]) {
        var f := Filter(rest, p);
        var r := [todos[0]] + f;
        forall j | 1 <= j < |r| ensures r[0].id != r[j].id {
          FilterMembership(rest, p, r[j]);
          var k :| 0 <= k < |rest| && rest[k] == r[j];
          assert todos[k + 1] == r[j];
        }
      }
    }
  }

  /** Deleting keeps ids unique. */
  lemma DeleteKeepsUniqueIds(todos: seq<Todo>, id: string)
    requires UniqueIds(todos)
    ensures UniqueIds(Delete(todos, id))
  {
    FilterKeepsUniqueIds(todos, LacksId(id));
  }

  // ---------------------------------------------------------------- clear

  predicate IsPending(t: Todo) {
    !t.completed
  }

  /** The confirmed branch of `clearCompleted`. */
  function ClearCompleted(todos: seq<Todo>): (r: seq<Todo>)
    ensures |r| <= |todos|
    ensures forall i :: 0 <= i < |r| ==> !r[i].completed
  {
    Filter(todos, IsPending)
  }

  /** Clearing leaves exactly the unfinished entries. */
  lemma ClearCompletedMembership(todos: seq<Todo>, t: Todo)
    ensures t in ClearCompleted(todos) <==> t in todos && !t.completed
  {
    FilterMembership(todos, IsPending, t);
  }

  /** Clearing works piecewise, so the remaining entries keep their order. */
  lemma ClearCompletedKeepsOrder(a: seq<Todo>, b: seq<Todo>)
    ensures ClearCompleted(a + b) == ClearCompleted(a) + ClearCompleted(b)
  {
    FilterConcat(a, b, IsPending);
  }

  /** Clearing a second time changes nothing. */
  lemma ClearCompletedIdempotent(todos: seq<Todo>)
    ensures ClearCompleted(ClearCompleted(todos)) == ClearCompleted(todos)
  {
    FilterIdempotent(todos, IsPending);
  }

  /** Clearing keeps ids unique. */
  lemma ClearCompletedKeepsUniqueIds(todos: seq<Todo>)
    requires UniqueIds(todos)
    ensures UniqueIds(ClearCompleted(todos))
  {
    FilterKeepsUniqueIds(todos, IsPending);
  }

  /** The confirmed branch of `clearAll`: the new list is empty whatever the
      old one held. */
  function ClearAll(todos: seq<Todo>): (r: seq<Todo>)
    ensures |r| == 0
  {
    []
  }

  // ---------------------------------------------------------------- seed

  /** How many placeholder tasks the first run fetches. */
  const SeedCount: nat := 3

  /** `initialTodos`: for i = 0, 1, 2 take the title of the i-th fetched
      record (`responses[i]`, `None` when that fetch or its decoding fails)
      and build a pending "outros" entry with id `String(i + 1)`; once all
      three are built, append them to `todos`. A failure abandons the
      entries built so far and leaves the list as it was. */
  method InitialTodos(todos: seq<Todo>, responses: seq<Option<string>>)
    returns (ok: bool, updated: seq<Todo>)
    requires |responses| == SeedCount
    ensures ok <==> forall i :: 0 <= i < SeedCount ==> responses[i].Some?
    ensures !ok ==> updated == todos
    ensures ok ==> |updated| == |todos| + SeedCount && updated[..|todos|] == todos
    ensures ok ==> forall i :: 0 <= i < SeedCount ==>
      updated[|todos| + i] == Todo(NatToString(i + 1), responses[i].value, false, Outros)
    ensures ok ==>
      updated[|todos|].id == "1" && updated[|todos| + 1].id == "2" && updated[|todos| + 2].id == "3"
    ensures ok && UniqueIds(todos) && (forall t :: t in todos ==> t.id != "1" && t.id != "2" && t.id != "3")
      ==> UniqueIds(updated)
  {
    var initial: seq<Todo> := [];
    for i := 0 to SeedCount
      invariant |initial| == i
      invariant forall k :: 0 <= k < i ==>
        responses[k].Some? && initial[k] == Todo(NatToString(k + 1), responses[k].value, false, Outros)
    {
      if responses[i].None? {
        return false, todos;
      }
      var newTodo := Todo(NatToString(i + 1), responses[i].value, false, Outros);
      initial := initial + [newTodo];
    }
    ok, updated := true, todos + initial;
    assert NatToString(1) == "1" && NatToString(2) == "2" && NatToString(3) == "3";
    if UniqueIds(todos) && (forall t :: t in todos ==> t.id != "1" && t.id != "2" && t.id != "3") {
      forall i, j | 0 <= i < j < |updated| ensures updated[i].id != updated[j].id {
        if i < |todos| && j >= |todos| {
          assert updated[i] in todos;
        }
      }
    }
  }
}
