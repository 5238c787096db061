/**
 * The admin "Level & Section" view: the guards of its handlers, the requests
 * they send, and the parsing of the comma-separated section lists typed into
 * its forms.  The level list itself is replaced only by a fetch.
 */
module LevelAndSection {
  import opened Common
  import Strings

  /** A level as the server lists it: its id, its name and the names of its sections. */
  datatype Level = Level(id: string, level: string, sectionNames: seq<string>)

  /** The requests the handlers send. A level id read through a stale index is None (`undefined`). */
  datatype Request =
    | CreateLevel(level: string, sections: seq<string>)
    | AddSections(levelId: Option<string>, additionalSections: seq<string>)
    | UpdateLevel(levelId: Option<string>, newName: string, sections: seq<string>)
    | DeleteLevel(id: string)
    | DeleteSection(sectionId: string)

  /** The server's reply to the level listing; a reply without `data` counts as an empty list. */
  datatype LevelsResponse = Received(data: Option<seq<Level>>) | FetchFailed

  /** `parts.map((section) => section.trim())`. */
  function TrimAll(parts: seq<string>): (r: seq<string>)
    ensures |r| == |parts|
    ensures forall i :: 0 <= i < |parts| ==> r[i] == Strings.Trim(parts[i])
    decreases |parts|
  {
    if parts == [] then [] else [Strings.Trim(parts[0])] + TrimAll(parts[1..])
  }

  /** `s.split(',').map((section) => section.trim())`. */
  function ParseSections(s: string): (r: seq<string>)
    ensures |r| == multiset(s)[','] + 1
    ensures forall i :: 0 <= i < |r| ==> Strings.IsTrimmed(r[i]) && ',' !in r[i]
  {
    var parts := Strings.Split(s, ',');
    TrimAllKeepsCommasOut(parts);
    TrimAll(parts)
  }

  /** Trimming pieces that hold no comma gives pieces that hold no comma. */
  lemma TrimAllKeepsCommasOut(parts: seq<string>)
    requires forall i :: 0 <= i < |parts| ==> ',' !in parts[i]
    ensures forall i :: 0 <= i < |parts| ==> ',' !in TrimAll(parts)[i]
  {
    forall i | 0 <= i < |parts| ensures ',' !in TrimAll(parts)[i] {
      if ',' in Strings.Trim(parts[i]) {
        Strings.TrimKeepsOnlyCharsOf(parts[i], ',');
      }
    }
  }

  /** Each piece between commas becomes one entry, trimmed; pieces that are empty or blank stay as "". */
  lemma ParseSectionsPieces(s: string)
    ensures var parts := Strings.Split(s, ',');
      |ParseSections(s)| == |parts| &&
      forall i :: 0 <= i < |parts| ==> ParseSections(s)[i] == Strings.Trim(parts[i])
    ensures Strings.Join(Strings.Split(s, ','), ",") == s
  {
    Strings.JoinSplit(s, ',');
  }

  /** A trimmed, comma-free head followed by ", " parses as itself followed by the pieces of the rest. */
  lemma ParseAfterHead(head: string, tail: string)
    requires Strings.IsTrimmed(head) && ',' !in head
    ensures ParseSections(head + ", " + tail) == [head] + ParseSections(tail)
  {
    var s := head + ", " + tail;
    var spaced := [' '] + tail;
    assert s == head + [','] + spaced;
    Strings.SplitAfterHead(head, ',', spaced);
    var tailParts := Strings.Split(tail, ',');
    assert spaced[1..] == tail;
    var first := [' '] + tailParts[0];
    assert Strings.Split(s, ',') == [head] + ([first] + tailParts[1..]);
    assert ([head] + ([first] + tailParts[1..]))[1..] == [first] + tailParts[1..];
    assert ([first] + tailParts[1..])[1..] == tailParts[1..];
    Strings.TrimOfTrimmed(head);
    Strings.TrimSkipsLeadingWhitespace(' ', tailParts[0]);
    assert TrimAll([first] + tailParts[1..]) == TrimAll(tailParts);
  }

  /**
   * The edit form shows the section names joined with ", "; saving splits on
   * "," and trims.  Names that are trimmed and free of commas come back as
   * they were, provided there is at least one.
   */
  lemma {:induction false} EditSaveRoundTrip(names: seq<string>)
    requires |names| >= 1
    requires forall i :: 0 <= i < |names| ==> Strings.IsTrimmed(names[i]) && ',' !in names[i]
    ensures ParseSections(Strings.Join(names, ", ")) == names
    decreases |names|
  {
    if |names| == 1 {
      Strings.SplitWithoutSeparator(names[0], ',');
      Strings.TrimOfTrimmed(names[0]);
    } else {
      EditSaveRoundTrip(names[1..]);
      ParseAfterHead(names[0], Strings.Join(names[1..], ", "));
      assert [names[0]] + names[1..] == names;
    }
  }

  /** A level with no sections is shown as "" and saved back as one empty section name. */
  lemma EmptySectionListSavesOneBlank()
    ensures ParseSections(Strings.Join([], ", ")) == [""]
  {
    assert Strings.Split("", ',') == [""];
  }

  /** `levels[editingIndex]?._id`: the id of the level being edited, or None when the index is null or stale. */
  function EditedLevelId(levels: seq<Level>, editingIndex: Option<int>): (id: Option<string>)
    ensures id.Some? <==> editingIndex.Some? && 0 <= editingIndex.value < |levels|
    ensures id.Some? ==> id.value == levels[editingIndex.value].id
  {
    match editingIndex
    case None => None
    case Some(i) => if 0 <= i < |levels| then Some(levels[i].id) else None
  }

  /** The state of the level editor. */
  class LevelEditor {
    var levels: seq<Level>
    var newLevel: string
    var newSections: string
    var additionalSections: string
    var editingIndex: Option<int>
    var editedLevel: string
    var editedSections: string

    /** The initial state: nothing listed, nothing typed, nothing being edited. */
    constructor ()
      ensures levels == [] && editingIndex == None
      ensures newLevel == "" && newSections == "" && additionalSections == ""
      ensures editedLevel == "" && editedSections == ""
    {
      levels := [];
      newLevel, newSections, additionalSections := "", "", "";
      editingIndex := None;
      editedLevel, editedSections := "", "";
    }

    /** `fetchLevels`: a reply replaces the list (`data || []`); a failed fetch keeps it. */
    method FetchLevels(response: LevelsResponse)
      modifies this`levels
      ensures levels == match response
        case FetchFailed => old(levels)
        case Received(None) => []
        case Received(Some(data)) => data
    {
      match response {
        case FetchFailed =>
        case Received(data) =>
          levels := if data.Some? then data.value else [];
      }
    }

    /**
     * `handleAddLevel`: with a blank level name or blank section list nothing
     * is sent and nothing changes; otherwise the untrimmed name and the parsed
     * sections are sent, and a successful request clears both inputs.
     */
    method HandleAddLevel(succeeds: bool) returns (request: Option<Request>)
      modifies this`newLevel, this`newSections
      ensures request.None? <==> Strings.Trim(old(newLevel)) == "" || Strings.Trim(old(newSections)) == ""
      ensures request.Some? ==> request.value == CreateLevel(old(newLevel), ParseSections(old(newSections)))
      ensures if request.Some? && succeeds then newLevel == "" && newSections == ""
              else newLevel == old(newLevel) && newSections == old(newSections)
    {
      if Strings.Trim(newLevel) == "" || Strings.Trim(newSections) == "" {
        return None;
      }
      request := Some(CreateLevel(newLevel, ParseSections(newSections)));
      if succeeds {
        newLevel, newSections := "", "";
      }
    }

    /**
     * `handleAddAdditionalSections`: a blank input is rejected; otherwise the
     * parsed sections are sent for the level being edited (its id is None when
     * no level is being edited), and success clears the input.
     */
    method HandleAddAdditionalSections(succeeds: bool) returns (request: Option<Request>)
      modifies this`additionalSections
      ensures request.None? <==> Strings.Trim(old(additionalSections)) == ""
      ensures request.Some? ==>
        request.value == AddSections(EditedLevelId(levels, editingIndex), ParseSections(old(additionalSections)))
      ensures additionalSections == if request.Some? && succeeds then "" else old(additionalSections)
    {
      if Strings.Trim(additionalSections) == "" {
        return None;
      }
      request := Some(AddSections(EditedLevelId(levels, editingIndex), ParseSections(additionalSections)));
      if succeeds {
        additionalSections := "";
      }
    }

    /**
     * `handleEditLevel`: an index outside the list changes nothing; otherwise
     * the level is opened for editing with its name and its sections joined by ", ".
     */
    method HandleEditLevel(index: int) returns (accepted: bool)
      modifies this`editingIndex, this`editedLevel, this`editedSections, this`additionalSections
      ensures accepted <==> 0 <= index < |levels|
      ensures accepted ==> (editingIndex == Some(index) && editedLevel == levels[index].level &&
        editedSections == Strings.Join(levels[index].sectionNames, ", ") && additionalSections == "")
      ensures !accepted ==> (editingIndex == old(editingIndex) && editedLevel == old(editedLevel) &&
        editedSections == old(editedSections) && additionalSections == old(additionalSections))
    {
      if index < 0 || index >= |levels| {
        return false;
      }
      var level := levels[index];
      editingIndex := Some(index);
      editedLevel := level.level;
      editedSections := Strings.Join(level.sectionNames, ", ");
      additionalSections := "";
      accepted := true;
    }

    /**
     * `handleSaveEdit`: a blank level name is rejected; otherwise the name and
     * the parsed sections are sent for the edited level, and success ends editing.
     */
    method HandleSaveEdit(succeeds: bool) returns (request: Option<Request>)
      modifies this`editingIndex
      ensures request.None? <==> Strings.Trim(editedLevel) == ""
      ensures request.Some? ==>
        request.value == UpdateLevel(EditedLevelId(levels, old(editingIndex)), editedLevel, ParseSections(editedSections))
      ensures editingIndex == if request.Some? && succeeds then None else old(editingIndex)
    {
      if Strings.Trim(editedLevel) == "" {
        return None;
      }
      request := Some(UpdateLevel(EditedLevelId(levels, editingIndex), editedLevel, ParseSections(editedSections)));
      if succeeds {
        editingIndex := None;
      }
    }

    /** `handleDeleteLevel`: only an index inside the list sends a delete, for that level's id. */
    method HandleDeleteLevel(index: int) returns (request: Option<Request>)
      ensures request.Some? <==> 0 <= index < |levels|
      ensures request.Some? ==> request.value == DeleteLevel(levels[index].id)
    {
      if index < 0 || index >= |levels| {
        return None;
      }
      request := Some(DeleteLevel(levels[index].id));
    }

    /** `handleDeleteSection`: both indices must be in range; then the named section is deleted. */
    method HandleDeleteSection(levelIndex: int, sectionIndex: int) returns (request: Option<Request>)
      ensures request.Some? <==> 0 <= levelIndex < |levels| && 0 <= sectionIndex < |levels[levelIndex].sectionNames|
      ensures request.Some? ==> request.value == DeleteSection(levels[levelIndex].sectionNames[sectionIndex])
    {
      if levelIndex < 0 || levelIndex >= |levels| {
        return None;
      }
      var level := levels[levelIndex];
      if 0 <= sectionIndex < |level.sectionNames| {
        request := Some(DeleteSection(level.sectionNames[sectionIndex]));
      } else {
        request := None;
      }
    }
  }

  /**
   * Opening a level for editing and saving it at once sends back its own name
   * and sections, when its section names are trimmed, comma-free and not empty.
   */
  method EditThenSave(editor: LevelEditor, index: int) returns (request: Option<Request>)
    requires 0 <= index < |editor.levels|
    requires Strings.Trim(editor.levels[index].level) != ""
    requires |editor.levels[index].sectionNames| >= 1
    requires forall i :: 0 <= i < |editor.levels[index].sectionNames| ==>
      Strings.IsTrimmed(editor.levels[index].sectionNames[i]) && ',' !in editor.levels[index].sectionNames[i]
    modifies editor`editingIndex, editor`editedLevel, editor`editedSections, editor`additionalSections
    ensures request == Some(UpdateLevel(Some(editor.levels[index].id), editor.levels[index].level,
      editor.levels[index].sectionNames))
    ensures editor.editingIndex == None
  {
    var accepted := editor.HandleEditLevel(index);
    EditSaveRoundTrip(editor.levels[index].sectionNames);
    request := editor.HandleSaveEdit(true);
  }
}
