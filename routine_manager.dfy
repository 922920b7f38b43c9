/** The in-memory routine list of `components/routine-manager.tsx`: an add form (`name`,
    `time`), a list of routines, and an edit buffer (`editId`, `editName`, `editTime`) for the
    routine being edited. Every handler validates the trimmed text before it changes the list,
    so every routine in the list holds trimmed, non-blank text. */
module RoutineManager {
  import opened Wrappers
  import opened JsText
  import Seqs

  datatype Routine = Routine(id: int, name: string, time: string)

  /** `s.trim() === ""`. */
  predicate Blank(s: string)
  {
    Trim(s) == ""
  }

  /** What every stored routine satisfies: its name and time are not empty and have no white
      space at either end. */
  predicate Entry(r: Routine)
  {
    r.name != "" && IsTrimmed(r.name) && r.time != "" && IsTrimmed(r.time)
  }

  predicate AllEntries(rs: seq<Routine>)
  {
    forall i :: 0 <= i < |rs| ==> Entry(rs[i])
  }

  /** The list after a successful `saveEdit`: the routines whose id is `editId` take the new name
      and time, every other routine, and every id, stays as it was. */
  function ApplyEdit(rs: seq<Routine>, editId: Option<int>, name: string, time: string): (r: seq<Routine>)
    ensures |r| == |rs|
    ensures forall i :: 0 <= i < |rs| ==> r[i].id == rs[i].id
    ensures forall i :: 0 <= i < |rs| && editId != Some(rs[i].id) ==> r[i] == rs[i]
    ensures forall i :: 0 <= i < |rs| && editId == Some(rs[i].id) ==> r[i].name == name && r[i].time == time
  {
    if rs == [] then []
    else
      var head := if editId == Some(rs[0].id) then rs[0].(name := name, time := time) else rs[0];
      [head] + ApplyEdit(rs[1..], editId, name, time)
  }

  /** The list after `deleteRoutine(id)`: the routines with the id are gone, every other
      routine is still there, as many times as before. */
  function Without(rs: seq<Routine>, id: int): (w: seq<Routine>)
    ensures forall r :: r in w <==> r in rs && r.id != id
    ensures forall r :: multiset(w)[r] == if r.id != id then multiset(rs)[r] else 0
  {
    Seqs.FilterCounts((r: Routine) => r.id != id, rs);
    Seqs.Filter((r: Routine) => r.id != id, rs)
  }

  /** With no routine being edited (`editId` is `null`), saving changes no routine. */
  lemma ApplyEditNothingSelected(rs: seq<Routine>, name: string, time: string)
    ensures ApplyEdit(rs, None, name, time) == rs
  {
    var r := ApplyEdit(rs, None, name, time);
    assert forall i :: 0 <= i < |rs| ==> r[i] == rs[i];
  }

  /** A routine made of trimmed, non-blank text is a valid entry. */
  lemma NewEntry(id: int, name: string, time: string)
    requires !Blank(name) && !Blank(time)
    ensures Entry(Routine(id, Trim(name), Trim(time)))
  {
  }

  /** Appending a valid entry keeps every routine valid. */
  lemma AppendEntry(rs: seq<Routine>, r: Routine)
    requires AllEntries(rs) && Entry(r)
    ensures AllEntries(rs + [r])
  {
    forall i | 0 <= i < |rs| + 1 ensures Entry((rs + [r])[i]) {
      if i < |rs| { assert (rs + [r])[i] == rs[i]; }
    }
  }

  /** Saving an edit keeps every routine trimmed and non-blank when the new text is. */
  lemma ApplyEditKeepsEntries(rs: seq<Routine>, editId: Option<int>, name: string, time: string)
    requires AllEntries(rs)
    requires !Blank(name) && !Blank(time)
    ensures AllEntries(ApplyEdit(rs, editId, Trim(name), Trim(time)))
  {
    NewEntry(0, name, time);
  }

  /** Saving the same edit twice is saving it once. */
  lemma ApplyEditIdempotent(rs: seq<Routine>, editId: Option<int>, name: string, time: string)
    ensures ApplyEdit(ApplyEdit(rs, editId, name, time), editId, name, time) == ApplyEdit(rs, editId, name, time)
  {
    var once := ApplyEdit(rs, editId, name, time);
    var twice := ApplyEdit(once, editId, name, time);
    assert forall i :: 0 <= i < |rs| ==> twice[i] == once[i];
  }

  /** Deleting keeps the other routines in their original order. */
  lemma WithoutKeepsOrder(rs: seq<Routine>, id: int)
    ensures Seqs.IsSubsequence(Without(rs, id), rs)
  {
    Seqs.FilterIsSubsequence((r: Routine) => r.id != id, rs);
  }

  /** Deleting an id that is not in the list changes nothing. */
  lemma WithoutAbsent(rs: seq<Routine>, id: int)
    requires forall i :: 0 <= i < |rs| ==> rs[i].id != id
    ensures Without(rs, id) == rs
  {
    Seqs.FilterKeepsAll((r: Routine) => r.id != id, rs);
  }

  /** Deleting keeps every remaining routine trimmed and non-blank. */
  lemma WithoutKeepsEntries(rs: seq<Routine>, id: int)
    requires AllEntries(rs)
    ensures AllEntries(Without(rs, id))
  {
    var w := Without(rs, id);
    forall i | 0 <= i < |w| ensures Entry(w[i]) {
      assert w[i] in rs;
    }
  }

  /** The component's state and its handlers. An `alert` is reported as `alerted`. */
  class Manager {
    var routines: seq<Routine>
    var name: string
    var time: string
    var editId: Option<int>
    var editName: string
    var editTime: string

    predicate Valid()
      reads this
    {
      AllEntries(routines)
    }

    /** The state on first render. */
    constructor ()
      ensures Valid()
      ensures routines == [] && name == "" && time == ""
      ensures editId == None && editName == "" && editTime == ""
    {
      routines := [];
      name, time := "", "";
      editId := None;
      editName, editTime := "", "";
    }

    /** The `onChange` of the name input. */
    method SetName(value: string)
      modifies this`name
      ensures name == value
    {
      name := value;
    }

    /** The `onChange` of the time input. */
    method SetTime(value: string)
      modifies this`time
      ensures time == value
    {
      time := value;
    }

    /** The `onChange` of the name input of the routine being edited. */
    method SetEditName(value: string)
      modifies this`editName
      ensures editName == value
    {
      editName := value;
    }

    /** The `onChange` of the time input of the routine being edited. */
    method SetEditTime(value: string)
      modifies this`editTime
      ensures editTime == value
    {
      editTime := value;
    }

    /** `addRoutine`, with the id `Date.now()` would give passed in as `id`. A blank name or time
        alerts and changes nothing; otherwise one routine holding the trimmed text is appended
        and both inputs are cleared. */
    method AddRoutine(id: int) returns (alerted: bool)
      requires Valid()
      modifies this`routines, this`name, this`time
      ensures Valid()
      ensures alerted == (Blank(old(name)) || Blank(old(time)))
      ensures alerted ==> routines == old(routines) && name == old(name) && time == old(time)
      ensures !alerted ==> routines == old(routines) + [Routine(id, Trim(old(name)), Trim(old(time)))]
      ensures !alerted ==> name == "" && time == ""
    {
      if Blank(name) || Blank(time) {
        alerted := true;
        return;
      }
      alerted := false;
      var newRoutine := Routine(id, Trim(name), Trim(time));
      NewEntry(id, name, time);
      AppendEntry(routines, newRoutine);
      routines := routines + [newRoutine];
      name := "";
      time := "";
    }

    /** `startEditing`: the routine's id, name and time are copied into the edit buffer. */
    method StartEditing(routine: Routine)
      modifies this`editId, this`editName, this`editTime
      ensures editId == Some(routine.id) && editName == routine.name && editTime == routine.time
    {
      editId := Some(routine.id);
      editName := routine.name;
      editTime := routine.time;
    }

    /** `saveEdit`: a blank edit field alerts and changes nothing; otherwise the routines with id
        `editId` take the trimmed text and the edit buffer is cleared. */
    method SaveEdit() returns (alerted: bool)
      requires Valid()
      modifies this`routines, this`editId, this`editName, this`editTime
      ensures Valid()
      ensures alerted == (Blank(old(editName)) || Blank(old(editTime)))
      ensures alerted ==> routines == old(routines)
      ensures alerted ==> editId == old(editId) && editName == old(editName) && editTime == old(editTime)
      ensures !alerted ==> routines == ApplyEdit(old(routines), old(editId), Trim(old(editName)), Trim(old(editTime)))
      ensures !alerted ==> editId == None && editName == "" && editTime == ""
    {
      if Blank(editName) || Blank(editTime) {
        alerted := true;
        return;
      }
      alerted := false;
      ApplyEditKeepsEntries(routines, editId, editName, editTime);
      routines := ApplyEdit(routines, editId, Trim(editName), Trim(editTime));
      editId := None;
      editName := "";
      editTime := "";
    }

    /** `cancelEdit`: the edit buffer is cleared, the list is left alone. */
    method CancelEdit()
      modifies this`editId, this`editName, this`editTime
      ensures editId == None && editName == "" && editTime == ""
    {
      editId := None;
      editName := "";
      editTime := "";
    }

    /** `deleteRoutine`: every routine with the id is removed. */
    method DeleteRoutine(id: int)
      requires Valid()
      modifies this`routines
      ensures Valid()
      ensures routines == Without(old(routines), id)
    {
      WithoutKeepsEntries(routines, id);
      routines := Without(routines, id);
    }
  }
}
