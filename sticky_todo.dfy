/**
 * The sticky-note to-do list (sticky-todo/src/App.jsx): notes addressed by
 * their position, an edit cursor `editIndex` and a set `doneSet` of
 * positions marked done. Deleting a note removes its position from
 * `doneSet` but does not renumber the other marks or the edit cursor, so
 * after a deletion they can point at a different note, or past the end.
 */
module StickyTodo {
  import opened Wrappers
  import opened Text

  /** The note colors a new note draws from. */
  const PastelColors: seq<string> := [
    "bg-pink-100 border-pink-200",
    "bg-yellow-200 border-yellow-300",
    "bg-green-100 border-green-200",
    "bg-blue-100 border-blue-200",
    "bg-purple-100 border-purple-200"]

  datatype Note = Note(text: string, color: string)

  /** `todos.filter((_, i) => i !== idx)`, walking the positions from 0. */
  function WithoutIndex<T>(s: seq<T>, idx: int): (r: seq<T>)
    ensures |r| == if 0 <= idx < |s| then |s| - 1 else |s|
  {
    if s == [] then []
    else (if idx == 0 then [] else [s[0]]) + WithoutIndex(s[1..], idx - 1)
  }

  /**
   * Filtering out one position cuts out exactly the element there and keeps
   * the others in order; a position outside the list removes nothing.
   */
  lemma {:induction false} WithoutIndexIsSlice<T>(s: seq<T>, idx: int)
    ensures 0 <= idx < |s| ==> WithoutIndex(s, idx) == s[..idx] + s[idx + 1..]
    ensures !(0 <= idx < |s|) ==> WithoutIndex(s, idx) == s
  {
    if s != [] {
      var tail := s[1..];
      var rest := WithoutIndex(tail, idx - 1);
      assert WithoutIndex(s, idx) == (if idx == 0 then [] else [s[0]]) + rest;
      WithoutIndexIsSlice(tail, idx - 1);
      if 0 < idx < |s| {
        assert rest == tail[..idx - 1] + tail[idx..];
        assert s[..idx] == [s[0]] + tail[..idx - 1];
        assert s[idx + 1..] == tail[idx..];
      } else {
        assert rest == tail;
        assert s == [s[0]] + tail;
      }
    }
  }

  /** Deleting a listed note removes exactly one occurrence of it. */
  lemma WithoutIndexMultiset<T>(s: seq<T>, idx: int)
    requires 0 <= idx < |s|
    ensures multiset(WithoutIndex(s, idx)) + multiset{s[idx]} == multiset(s)
  {
    WithoutIndexIsSlice(s, idx);
    SliceMultiset(s, idx);
  }

  lemma SliceMultiset<T>(s: seq<T>, idx: int)
    requires 0 <= idx < |s|
    ensures multiset(s[..idx] + s[idx + 1..]) + multiset{s[idx]} == multiset(s)
  {
    assert s == s[..idx] + [s[idx]] + s[idx + 1..];
  }

  /**
   * What a deletion does to the positions after it: the list is one
   * shorter, so a later position `j` now holds the note that was at `j + 1`,
   * and the last old position lies past the end.
   */
  lemma LaterIndicesShift<T>(s: seq<T>, idx: int, j: int)
    requires 0 <= idx < j < |s|
    ensures |WithoutIndex(s, idx)| == |s| - 1
    ensures j < |s| - 1 ==> WithoutIndex(s, idx)[j] == s[j + 1]
    ensures j == |s| - 1 ==> j == |WithoutIndex(s, idx)|
  {
    WithoutIndexIsSlice(s, idx);
  }

  /**
   * Done marks are not renumbered: a mark on a position after the deleted
   * one survives the deletion and now marks the note that followed the one
   * it was set on (or no note at all, when it was on the last one).
   */
  lemma DoneMarkShifts(todos: seq<Note>, doneSet: set<int>, idx: int, j: int)
    requires 0 <= idx < j < |todos| && j in doneSet
    ensures j in doneSet - {idx}
    ensures |WithoutIndex(todos, idx)| == |todos| - 1
    ensures j < |todos| - 1 ==> WithoutIndex(todos, idx)[j] == todos[j + 1]
    ensures j == |todos| - 1 ==> j >= |WithoutIndex(todos, idx)|
  {
    LaterIndicesShift(todos, idx, j);
  }

  /**
   * Three different notes, the middle one done: after `Todo.Delete(0)` the
   * notes are the middle and the last, with the marks `doneSet - {0}`; the
   * note that was done now shows as not done, and the one mark left shows
   * on the last note instead.
   */
  lemma DoneMarkMovesToAnotherNote(a: Note, b: Note, c: Note, doneSet: set<int>)
    requires b != c && doneSet == {1}
    ensures var after, marks := WithoutIndex([a, b, c], 0), doneSet - {0};
      && after == [b, c]
      && (forall j :: 0 <= j < |after| && after[j] == b ==> j !in marks)
      && marks != {}
      && (forall j :: j in marks ==> 0 <= j < |after| && after[j] == c)
  {
    WithoutIndexIsSlice([a, b, c], 0);
    assert 1 in doneSet - {0};
  }

  class Todo {
    var msg: string
    var todos: seq<Note>
    var editIndex: Option<int>
    var doneSet: set<int>

    /** Every note has one of the palette's colors. */
    ghost predicate Valid()
      reads this
    {
      forall n :: n in todos ==> n.color in PastelColors
    }

    constructor ()
      ensures Valid()
      ensures msg == "" && todos == [] && editIndex == None && doneSet == {}
    {
      msg := "";
      todos := [];
      editIndex := None;
      doneSet := {};
    }

    /** The text field. */
    method SetMsg(value: string)
      requires Valid()
      modifies this`msg
      ensures Valid() && msg == value
    {
      msg := value;
    }

    /**
     * `handleAddOrUpdate`. A blank message changes nothing. While editing,
     * the text of the note under the cursor becomes the message, untrimmed;
     * a cursor past the end makes `updated[editIndex].text` throw a
     * TypeError, reported as `crashed`, and nothing changes. Otherwise the
     * untrimmed message is appended as a note of a random palette color.
     * In both successful branches the field is cleared.
     */
    method AddOrUpdate() returns (crashed: bool)
      requires Valid()
      modifies this`todos, this`editIndex, this`msg
      ensures Valid()
      ensures crashed <==> !IsBlank(old(msg)) && old(editIndex).Some? && !(0 <= old(editIndex).value < |old(todos)|)
      ensures IsBlank(old(msg)) || crashed ==> unchanged(this)
      ensures !IsBlank(old(msg)) && !crashed ==> msg == "" && editIndex == None
      ensures !IsBlank(old(msg)) && !crashed && old(editIndex).Some? ==>
        todos == old(todos)[old(editIndex).value := old(todos)[old(editIndex).value].(text := old(msg))]
      ensures !IsBlank(old(msg)) && old(editIndex).None? ==>
        && |todos| == |old(todos)| + 1
        && todos[..|old(todos)|] == old(todos)
        && todos[|old(todos)|].text == old(msg)
        && todos[|old(todos)|].color in PastelColors
    {
      var blank := IsBlank(msg);
      if blank {
        return false;
      }
      match editIndex {
        case Some(i) =>
          if !(0 <= i < |todos|) {
            return true;
          }
          UpdateText(i);
        case None =>
          Append();
      }
      crashed := false;
    }

    /** The editing branch of `handleAddOrUpdate`. */
    method UpdateText(i: int)
      requires Valid() && 0 <= i < |todos|
      modifies this`todos, this`editIndex, this`msg
      ensures Valid()
      ensures todos == old(todos)[i := old(todos)[i].(text := old(msg))]
      ensures editIndex == None && msg == ""
    {
      todos := todos[i := todos[i].(text := msg)];
      editIndex := None;
      msg := "";
    }

    /** The adding branch of `handleAddOrUpdate`, with `Math.random()` as a free choice of color. */
    method Append()
      requires Valid()
      modifies this`todos, this`msg
      ensures Valid()
      ensures |todos| == |old(todos)| + 1 && todos[..|old(todos)|] == old(todos)
      ensures todos[|old(todos)|].text == old(msg) && todos[|old(todos)|].color in PastelColors
      ensures msg == ""
    {
      var c :| 0 <= c < |PastelColors|;
      todos := todos + [Note(msg, PastelColors[c])];
      msg := "";
    }

    /**
     * `handleDelete`: the note at `idx` goes and `idx` loses its done mark;
     * no other mark and not the edit cursor is renumbered. Deleting the note
     * under the cursor ends the edit and clears the field.
     */
    method Delete(idx: int)
      requires Valid()
      modifies this`todos, this`doneSet, this`editIndex, this`msg
      ensures Valid()
      ensures todos == WithoutIndex(old(todos), idx)
      ensures doneSet == old(doneSet) - {idx}
      ensures old(editIndex) == Some(idx) ==> editIndex == None && msg == ""
      ensures old(editIndex) != Some(idx) ==> editIndex == old(editIndex) && msg == old(msg)
    {
      WithoutIndexIsSlice(todos, idx);
      todos := WithoutIndex(todos, idx);
      doneSet := doneSet - {idx};
      if editIndex == Some(idx) {
        editIndex := None;
        msg := "";
      }
    }

    /** `handleDone`: marks a position; marking it again changes nothing. */
    method MarkDone(idx: int)
      requires Valid()
      modifies this`doneSet
      ensures Valid()
      ensures doneSet == old(doneSet) + {idx}
      ensures idx in old(doneSet) ==> doneSet == old(doneSet)
    {
      doneSet := doneSet + {idx};
    }

    /** `handleEdit`, from a note's Edit button: the field shows the note's text. */
    method Edit(idx: int)
      requires Valid() && 0 <= idx < |todos|
      modifies this`msg, this`editIndex
      ensures Valid()
      ensures msg == todos[idx].text && editIndex == Some(idx)
    {
      msg := todos[idx].text;
      editIndex := Some(idx);
    }
  }
}
