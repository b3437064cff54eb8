/** The department list editor of src/components/settings/DepartmentSettings.tsx:
    a list of names with an input for a new one and an in-place editor for
    one position at a time. */
module DepartmentSettings {
  import opened Wrappers

  /** The characters `String.prototype.trim` removes: the ECMAScript
      WhiteSpace and LineTerminator code points. */
  predicate IsSpace(c: char)
  {
    c == '\U{9}' || c == '\U{A}' || c == '\U{B}' || c == '\U{C}' || c == '\U{D}'
    || c == '\U{20}' || c == '\U{A0}' || c == '\U{1680}'
    || ('\U{2000}' <= c <= '\U{200A}')
    || c == '\U{2028}' || c == '\U{2029}' || c == '\U{202F}' || c == '\U{205F}'
    || c == '\U{3000}' || c == '\U{FEFF}'
  }

  predicate AllSpace(s: string)
  {
    forall k :: 0 <= k < |s| ==> IsSpace(s[k])
  }

  /** Drops the leading white space: the result is a suffix of `s`. */
  function TrimStart(s: string): (r: string)
    ensures |r| <= |s| && r == s[|s| - |r|..]
    ensures forall k :: 0 <= k < |s| - |r| ==> IsSpace(s[k])
    ensures r != [] ==> !IsSpace(r[0])
  {
    if s != [] && IsSpace(s[0]) then TrimStart(s[1..]) else s
  }

  /** Drops the trailing white space: the result is a prefix of `s`. */
  function TrimEnd(s: string): (r: string)
    ensures |r| <= |s| && r == s[..|r|]
    ensures forall k :: |r| <= k < |s| ==> IsSpace(s[k])
    ensures r != [] ==> !IsSpace(r[|r| - 1])
  {
    if s != [] && IsSpace(s[|s| - 1]) then TrimEnd(s[..|s| - 1]) else s
  }

  /** `s.trim()`. */
  function Trim(s: string): (r: string)
    ensures |r| <= |s|
    ensures r != [] ==> !IsSpace(r[|r| - 1])
  {
    TrimEnd(TrimStart(s))
  }

  /** `t` is the piece of `s` starting at `a`, with only white space around
      it and none at either of its ends. */
  predicate TrimmedPiece(s: string, a: nat, t: string)
  {
    && a + |t| <= |s| && t == s[a..a + |t|]
    && (forall k :: 0 <= k < a ==> IsSpace(s[k]))
    && (forall k :: a + |t| <= k < |s| ==> IsSpace(s[k]))
    && (t != [] ==> !IsSpace(t[0]) && !IsSpace(t[|t| - 1]))
  }

  /** `trim` keeps one contiguous piece of `s`, removes only white space
      around it, and leaves no white space at either end. */
  lemma TrimKeepsMiddle(s: string)
    ensures TrimmedPiece(s, |s| - |TrimStart(s)|, Trim(s))
  {
    Nested(s, TrimStart(s), Trim(s));
  }

  /** A prefix `t` of a suffix `u` of `s`, each cut off at white space that
      stops at a non-space character, is a trimmed piece of `s`. */
  lemma Nested(s: string, u: string, t: string)
    requires |u| <= |s| && u == s[|s| - |u|..] && forall k :: 0 <= k < |s| - |u| ==> IsSpace(s[k])
    requires u != [] ==> !IsSpace(u[0])
    requires |t| <= |u| && t == u[..|t|] && forall k :: |t| <= k < |u| ==> IsSpace(u[k])
    requires t != [] ==> !IsSpace(t[|t| - 1])
    ensures TrimmedPiece(s, |s| - |u|, t)
  {
    var a := |s| - |u|;
    assert forall k :: a + |t| <= k < |s| ==> s[k] == u[k - a];
    if t != [] {
      assert t[0] == u[0];
    }
  }

  /** A value is blank (`!value.trim()`) exactly when it is all white space. */
  lemma BlankIffAllSpace(s: string)
    ensures Trim(s) == [] <==> AllSpace(s)
  {
    var u := TrimStart(s);
    if Trim(s) == [] {
      assert AllSpace(u[0..]);
      assert |u| == 0;
      assert s[..|s|] == s;
    } else {
      assert !IsSpace(Trim(s)[0]);
      TrimKeepsMiddle(s);
      assert Trim(s)[0] == s[|s| - |u|];
    }
  }

  /** Trimming twice is trimming once. */
  lemma TrimIdempotent(s: string)
    ensures Trim(Trim(s)) == Trim(s)
  {
    var t := Trim(s);
    if t != [] {
      TrimKeepsMiddle(s);
      TrimStartStops(t);
      TrimEndStops(t);
    }
  }

  lemma TrimStartStops(s: string)
    requires s != [] && !IsSpace(s[0])
    ensures TrimStart(s) == s
  {
  }

  lemma TrimEndStops(s: string)
    requires s != [] && !IsSpace(s[|s| - 1])
    ensures TrimEnd(s) == s
  {
  }

  /** `departments.filter((_, i) => i !== index)`, position by position. */
  function WithoutIndex(s: seq<string>, index: int): (r: seq<string>)
    ensures 0 <= index < |s| ==> r == s[..index] + s[index + 1..]
    ensures !(0 <= index < |s|) ==> r == s
  {
    if s == [] then []
    else
      var init := s[..|s| - 1];
      WithoutIndex(init, index) + (if index == |s| - 1 then [] else [s[|s| - 1]])
  }

  /** Removing position `index` shifts the later names down by one and
      keeps every earlier one in place. */
  lemma WithoutIndexPositions(s: seq<string>, index: nat)
    requires index < |s|
    ensures var r := WithoutIndex(s, index);
      && |r| == |s| - 1
      && (forall k :: 0 <= k < index ==> r[k] == s[k])
      && (forall k :: index <= k < |r| ==> r[k] == s[k + 1])
  {
  }

  /** Adding a name and then removing the last position restores the list. */
  lemma RemoveAfterAdd(s: seq<string>, name: string)
    ensures WithoutIndex(s + [name], |s|) == s
  {
    assert (s + [name])[..|s|] == s;
  }

  /** The editor's state: the list, the new-name input, which position is
      being edited (`null` as `None`) and the edit input. */
  class Settings {
    var departments: seq<string>
    var newDepartment: string
    var editingIndex: Option<nat>
    var editValue: string

    constructor ()
      ensures departments == ["Development", "Design", "Marketing"]
      ensures newDepartment == "" && editingIndex == None && editValue == ""
    {
      departments := ["Development", "Design", "Marketing"];
      newDepartment := "";
      editingIndex := None;
      editValue := "";
    }

    /** The new-name input's `onChange`. */
    method SetNewDepartment(value: string)
      modifies this`newDepartment
      ensures newDepartment == value
    {
      newDepartment := value;
    }

    /** The edit input's `onChange`. */
    method SetEditValue(value: string)
      modifies this`editValue
      ensures editValue == value
    {
      editValue := value;
    }

    /** `handleAddDepartment`: a blank input changes nothing; otherwise the
        trimmed name is appended, even when it is already listed, and the
        input is cleared. */
    method HandleAddDepartment()
      modifies this`departments, this`newDepartment
      ensures AllSpace(old(newDepartment)) ==>
        departments == old(departments) && newDepartment == old(newDepartment)
      ensures !AllSpace(old(newDepartment)) ==>
        departments == old(departments) + [Trim(old(newDepartment))] && newDepartment == ""
    {
      BlankIffAllSpace(newDepartment);
      if Trim(newDepartment) != [] {
        departments := departments + [Trim(newDepartment)];
        newDepartment := "";
      }
    }

    /** `handleRemoveDepartment(index)`: drops exactly that position. The
        editing index is left as it was, as the component leaves it. */
    method HandleRemoveDepartment(index: int)
      modifies this`departments
      ensures departments == WithoutIndex(old(departments), index)
    {
      departments := WithoutIndex(departments, index);
    }

    /** `startEditing(index)`; the component only offers it for a listed position. */
    method StartEditing(index: nat)
      requires index < |departments|
      modifies this`editingIndex, this`editValue
      ensures editingIndex == Some(index) && editValue == departments[index]
    {
      editingIndex := Some(index);
      editValue := departments[index];
    }

    /** `handleSaveEdit(index)`: a blank edit value changes nothing and
        leaves the editor open; otherwise position `index` alone becomes the
        trimmed value and the editor closes. The save button is shown only
        on a listed position. */
    method HandleSaveEdit(index: nat)
      requires index < |departments|
      modifies this`departments, this`editingIndex
      ensures AllSpace(editValue) ==>
        departments == old(departments) && editingIndex == old(editingIndex)
      ensures !AllSpace(editValue) ==>
        && |departments| == |old(departments)|
        && departments[index] == Trim(editValue)
        && (forall k :: 0 <= k < |departments| && k != index ==> departments[k] == old(departments)[k])
        && editingIndex == None
    {
      BlankIffAllSpace(editValue);
      if Trim(editValue) != [] {
        var newDepartments := departments;
        newDepartments := newDepartments[index := Trim(editValue)];
        departments := newDepartments;
        editingIndex := None;
      }
    }
  }

  /** Starting an edit and saving it unchanged writes back the trimmed name
      and closes the editor. */
  method EditUnchanged(settings: Settings, index: nat)
    requires index < |settings.departments|
    requires !AllSpace(settings.departments[index])
    modifies settings
    ensures settings.departments == old(settings.departments)[index := Trim(old(settings.departments)[index])]
    ensures settings.editingIndex == None
  {
    settings.StartEditing(index);
    settings.HandleSaveEdit(index);
  }
}
