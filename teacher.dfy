/**
 * The admin "Teacher" view: the list of teachers, the name form and the index
 * of the teacher being edited.  The server decides whether each request
 * succeeds; a created teacher is the one it sends back.
 */
module Teacher {
  import opened Common
  import Strings

  /** A teacher as listed: its server id and its name. */
  datatype Teacher = Teacher(id: string, teacherName: string)

  /** The requests the handlers send. */
  datatype Request =
    | CreateTeacher(teacherName: string)
    | UpdateTeacher(teacherId: string, newName: string)
    | DeleteTeacher(teacherId: string)

  /** The server's reply to the teacher listing; a reply without `data` counts as an empty list. */
  datatype TeachersResponse = Received(data: Option<seq<Teacher>>) | FetchFailed

  /** The server's reply: failure, or success carrying the created teacher (ignored by update and delete). */
  datatype Reply = Failed | Succeeded(created: Teacher)

  /** The list with the name at `index` replaced and everything else kept. */
  function Rename(teachers: seq<Teacher>, index: int, name: string): (r: seq<Teacher>)
    requires 0 <= index < |teachers|
    ensures |r| == |teachers|
    ensures r[index].teacherName == name && r[index].id == teachers[index].id
    ensures forall j :: 0 <= j < |r| && j != index ==> r[j] == teachers[j]
  {
    teachers[index := teachers[index].(teacherName := name)]
  }

  /**
   * Where the edited teacher sits after the entry at `deleted` is removed:
   * nowhere if it was that entry, one place earlier if it came after it.
   */
  function AdjustEditingIndex(editingIndex: Option<int>, deleted: int): (r: Option<int>)
  {
    match editingIndex
    case None => None
    case Some(e) => if e == deleted then None else if e > deleted then Some(e - 1) else Some(e)
  }

  /** The adjusted index still designates the same teacher, unless that teacher was the one removed. */
  lemma AdjustedIndexKeepsTarget(teachers: seq<Teacher>, e: int, deleted: int)
    requires 0 <= e < |teachers| && 0 <= deleted < |teachers|
    ensures var r := AdjustEditingIndex(Some(e), deleted);
      (r.Some? <==> e != deleted) &&
      (r.Some? ==> 0 <= r.value < |RemoveAt(teachers, deleted)| && RemoveAt(teachers, deleted)[r.value] == teachers[e])
  {
  }

  /**
   * As written, a delete leaves `editingIndex` as it was.  Deleting an entry
   * before the one being edited therefore moves the index onto the next
   * teacher: with distinct ids, the index now names a different teacher.
   */
  lemma DeleteBeforeEditedShiftsTarget(teachers: seq<Teacher>, e: int, deleted: int)
    requires 0 <= deleted < e < |teachers|
    requires forall i, j :: 0 <= i < j < |teachers| ==> teachers[i].id != teachers[j].id
    ensures e < |teachers| - 1 ==>
      RemoveAt(teachers, deleted)[e] == teachers[e + 1] && RemoveAt(teachers, deleted)[e].id != teachers[e].id
    ensures e == |teachers| - 1 ==> e == |RemoveAt(teachers, deleted)|
  {
  }

  /** The state of the teacher manager. */
  class TeacherManager {
    var teachers: seq<Teacher>
    var formName: string
    var editingIndex: Option<int>

    /** The initial state: no teachers listed, an empty form, nothing being edited. */
    constructor ()
      ensures teachers == [] && formName == "" && editingIndex == None
    {
      teachers, formName, editingIndex := [], "", None;
    }

    /** `fetchTeachers` on mount: a reply replaces the list (`data || []`); a failed fetch keeps it. */
    method FetchTeachers(response: TeachersResponse)
      modifies this`teachers
      ensures teachers == match response
        case FetchFailed => old(teachers)
        case Received(None) => []
        case Received(Some(data)) => data
    {
      match response {
        case FetchFailed =>
        case Received(data) =>
          teachers := if data.Some? then data.value else [];
      }
    }

    /** `handleChange`: the name input's value becomes the form's name. */
    method HandleChange(value: string)
      modifies this`formName
      ensures formName == value
    {
      formName := value;
    }

    /**
     * `handleSubmit`.  A blank name sends nothing and changes nothing.  When
     * editing, a stale index (reading its id throws) sends nothing and changes
     * nothing; otherwise an update is sent and success renames only that
     * entry, ends editing and clears the form.  When not editing, a create is
     * sent and success appends the server's teacher and clears the form.  A
     * failed request leaves the state as it was.
     */
    method HandleSubmit(reply: Reply) returns (request: Option<Request>)
      modifies this`teachers, this`formName, this`editingIndex
      ensures Strings.Trim(old(formName)) == "" ==> request == None
      ensures request == None || reply == Failed ==>
        teachers == old(teachers) && formName == old(formName) && editingIndex == old(editingIndex)
      ensures Strings.Trim(old(formName)) != "" && old(editingIndex) == None ==>
        request == Some(CreateTeacher(old(formName))) &&
        (reply.Succeeded? ==> teachers == old(teachers) + [reply.created] && formName == "" && editingIndex == None)
      ensures Strings.Trim(old(formName)) != "" && old(editingIndex).Some? ==>
        var e := old(editingIndex).value;
        if 0 <= e < |old(teachers)| then
          request == Some(UpdateTeacher(old(teachers)[e].id, old(formName))) &&
          (reply.Succeeded? ==> teachers == Rename(old(teachers), e, old(formName)) && formName == "" && editingIndex == None)
        else request == None
    {
      if Strings.Trim(formName) == "" {
        return None;
      }
      match editingIndex {
        case Some(e) =>
          if e < 0 || e >= |teachers| {
            return None;
          }
          request := Some(UpdateTeacher(teachers[e].id, formName));
          if reply.Succeeded? {
            teachers := Rename(teachers, e, formName);
            editingIndex := None;
            formName := "";
          }
        case None =>
          request := Some(CreateTeacher(formName));
          if reply.Succeeded? {
            teachers := teachers + [reply.created];
            formName := "";
          }
      }
    }

    /** `handleEdit`: the entry's name fills the form and its index becomes the one being edited. */
    method HandleEdit(index: int)
      modifies this`formName, this`editingIndex
      ensures 0 <= index < |teachers| ==> formName == teachers[index].teacherName && editingIndex == Some(index)
      ensures !(0 <= index < |teachers|) ==> formName == old(formName) && editingIndex == old(editingIndex)
    {
      if 0 <= index < |teachers| {
        formName := teachers[index].teacherName;
        editingIndex := Some(index);
      }
    }

    /**
     * `handleDelete` as written: a delete is sent for the entry's id and
     * success removes exactly that entry; `editingIndex` is left as it was.
     */
    method HandleDeleteAsWritten(index: int, reply: Reply) returns (request: Option<Request>)
      modifies this`teachers
      ensures request.Some? <==> 0 <= index < |old(teachers)|
      ensures request.Some? ==> request.value == DeleteTeacher(old(teachers)[index].id)
      ensures teachers == if request.Some? && reply.Succeeded? then RemoveAt(old(teachers), index) else old(teachers)
    {
      if index < 0 || index >= |teachers| {
        return None;
      }
      request := Some(DeleteTeacher(teachers[index].id));
      if reply.Succeeded? {
        teachers := RemoveAt(teachers, index);
      }
    }

    /** `handleDelete` with the editing index kept on the teacher it was opened for. */
    method HandleDelete(index: int, reply: Reply) returns (request: Option<Request>)
      modifies this`teachers, this`editingIndex
      ensures request.Some? <==> 0 <= index < |old(teachers)|
      ensures request.Some? ==> request.value == DeleteTeacher(old(teachers)[index].id)
      ensures request.Some? && reply.Succeeded? ==>
        teachers == RemoveAt(old(teachers), index) && editingIndex == AdjustEditingIndex(old(editingIndex), index)
      ensures !(request.Some? && reply.Succeeded?) ==> teachers == old(teachers) && editingIndex == old(editingIndex)
    {
      request := HandleDeleteAsWritten(index, reply);
      if request.Some? && reply.Succeeded? {
        editingIndex := AdjustEditingIndex(editingIndex, index);
      }
    }
  }
}
