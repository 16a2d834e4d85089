/** The task edit dialog (`TaskEditor`): its state is whether it is open
    and the name and points being edited. Saving hands the edit to the
    store only when the trimmed name is non-empty and the points positive;
    cancelling restores the task's values. */
module TaskEditor {
  import opened Wrappers
  import opened Tasks

  /** The characters `String.prototype.trim` removes: white space and line
      terminators. */
  predicate IsWhitespace(c: char)
  {
    || c == '\t' || c == '\n' || c == '\U{B}' || c == '\U{C}' || c == '\r' || c == ' '
    || c == '\U{A0}' || c == '\U{1680}' || ('\U{2000}' <= c <= '\U{200A}')
    || c == '\U{2028}' || c == '\U{2029}' || c == '\U{202F}' || c == '\U{205F}'
    || c == '\U{3000}' || c == '\U{FEFF}'
  }

  predicate Blank(s: string)
  {
    forall i :: 0 <= i < |s| ==> IsWhitespace(s[i])
  }

  /** `s.trim()`: the text between the leading and the trailing white space. */
  function Trim(s: string): (r: string)
    ensures exists i, j :: 0 <= i <= j <= |s| && r == s[i..j] && Blank(s[..i]) && Blank(s[j..])
    ensures r != [] ==> !IsWhitespace(r[0]) && !IsWhitespace(r[|r| - 1])
    ensures r == [] <==> Blank(s)
  {
    var i := Lead(s);
    if i == |s| then
      assert s[..i] == s && s[i..i] == [];
      []
    else
      var j := |s| - Trail(s);
      assert !Blank(s) by { assert !IsWhitespace(s[i]); }
      s[i..j]
  }

  /** The number of white-space characters `s` starts with. */
  function Lead(s: string): (n: nat)
    ensures n <= |s| && Blank(s[..n])
    ensures n < |s| ==> !IsWhitespace(s[n])
  {
    if s == [] || !IsWhitespace(s[0]) then 0
    else
      var m := Lead(s[1..]);
      assert s[..m + 1] == [s[0]] + s[1..][..m];
      m + 1
  }

  /** The number of white-space characters `s` ends with. */
  function Trail(s: string): (n: nat)
    ensures n <= |s| && Blank(s[|s| - n..])
    ensures n < |s| ==> !IsWhitespace(s[|s| - n - 1])
  {
    if s == [] || !IsWhitespace(s[|s| - 1]) then 0
    else
      var front := s[..|s| - 1];
      var m := Trail(front);
      assert s[|s| - (m + 1)..] == front[|front| - m..] + [s[|s| - 1]];
      m + 1
  }

  /** The points field's change handler:
      `Math.max(1, Math.min(10, parseInt(value) || 1))`, with `None` for a
      value that does not parse (NaN). */
  function ClampPoints(parsed: Option<int>): (p: int)
    ensures 1 <= p <= 10
    ensures parsed.None? || parsed == Some(0) ==> p == 1
    ensures parsed.Some? && 1 <= parsed.value <= 10 ==> p == parsed.value
    ensures parsed.Some? && parsed.value > 10 ==> p == 10
    ensures parsed.Some? && parsed.value < 1 ==> p == 1
  {
    var v := match parsed
      case Some(n) => if n != 0 then n else 1
      case None => 1;
    if v > 10 then 10 else if v < 1 then 1 else v
  }

  /** What `handleSave` accepts: a name that is not blank and positive points. */
  predicate Acceptable(name: string, points: int)
  {
    Trim(name) != [] && points > 0
  }

  /** The call `onSave(id, name, points)`. */
  datatype Edit = Edit(id: string, name: string, points: int)

  class TaskEditorDialog {
    /** The `task` prop of the latest render. The component is keyed by the
        task's id, so its state survives a re-render with the edited task. */
    var task: Task
    var open: bool
    var name: string
    var points: int

    /** The dialog as first rendered: closed, showing the task's values. */
    constructor (task: Task)
      ensures this.task == task
      ensures !open && name == task.name && points == task.points
    {
      this.task := task;
      open := false;
      name := task.name;
      points := task.points;
    }

    /** The dialog's `onOpenChange` (the trigger button opens it). */
    method SetOpen(value: bool)
      modifies this
      ensures open == value && name == old(name) && points == old(points) && task == old(task)
    {
      open := value;
    }

    /** The name field's change handler: the text is taken as typed. */
    method ChangeName(value: string)
      modifies this
      ensures name == value && open == old(open) && points == old(points) && task == old(task)
    {
      name := value;
    }

    /** The points field's change handler: the value is always 1 to 10. */
    method ChangePoints(parsed: Option<int>)
      modifies this
      ensures points == ClampPoints(parsed) && 1 <= points <= 10
      ensures open == old(open) && name == old(name) && task == old(task)
    {
      points := ClampPoints(parsed);
    }

    /** `handleSave`: on acceptable input, the edit with the trimmed name is
        handed on and the dialog closes; otherwise nothing happens at all. */
    method Save() returns (saved: Option<Edit>)
      modifies this
      ensures Acceptable(old(name), old(points)) ==>
                saved == Some(Edit(task.id, Trim(old(name)), old(points))) && !open
      ensures !Acceptable(old(name), old(points)) ==> saved == None && open == old(open)
      ensures name == old(name) && points == old(points) && task == old(task)
    {
      if Trim(name) != [] && points > 0 {
        saved := Some(Edit(task.id, Trim(name), points));
        open := false;
      } else {
        saved := None;
      }
    }

    /** A re-render with a new `task` prop for the same id (after a saved
        edit, the edited task): the prop changes, the dialog's own state
        (`open`, `name`, `points`) is kept. */
    method Rerender(t: Task)
      requires t.id == task.id
      modifies this
      ensures task == t
      ensures open == old(open) && name == old(name) && points == old(points)
    {
      task := t;
    }

    /** `handleCancel`: the values of the current `task` prop are restored
        and the dialog closes. */
    method Cancel()
      modifies this
      ensures name == task.name && points == task.points && !open && task == old(task)
    {
      name := task.name;
      points := task.points;
      open := false;
    }
  }

  /** Once the points field has been changed, a save is refused only for
      a blank name, and a saved edit carries 1 to 10 points. */
  lemma ChangedPointsAlwaysAcceptable(name: string, parsed: Option<int>)
    ensures Acceptable(name, ClampPoints(parsed)) <==> !Blank(name)
    ensures 1 <= ClampPoints(parsed) <= 10
  {
  }
}
