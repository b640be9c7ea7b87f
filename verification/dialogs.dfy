/** The name rules of the two creation dialogs:
    frontend/src/components/FileDialog.js and ProjectDialog.js. Each dialog
    is an object whose handlers update its state fields; `onSubmit` is
    modelled as the submission a handler returns (`None` when it is not
    called), `onClose` as nothing. */
module Dialogs {
  import opened Strings
  import opened FileModel
  import EditorLanguage

  const EmptyNameError: string := "Name cannot be empty"

  /** The name handed to `onSubmit`: a file name without a dot gets ".js";
      folder names and dotted names go through unchanged and untrimmed. */
  function SubmittedName(name: string, fileType: string): (r: string)
    ensures fileType == "file" && !Contains(name, ".") ==> r == name + ".js"
    ensures fileType != "file" || Contains(name, ".") ==> r == name
  {
    if fileType == "file" && !Contains(name, ".") then name + ".js" else name
  }

  /** A submitted file name always has a dot, submitting it again leaves it
      alone, and a completed name is edited as JavaScript. */
  lemma SubmittedFileNameDotted(name: string)
    ensures Contains(SubmittedName(name, "file"), ".")
    ensures SubmittedName(SubmittedName(name, "file"), "file") == SubmittedName(name, "file")
    ensures !Contains(name, ".") ==> EditorLanguage.LanguageOf(SubmittedName(name, "file")) == EditorLanguage.JavaScript
  {
    var r := SubmittedName(name, "file");
    if !Contains(name, ".") {
      assert OccursAt(r, ".", |name|);
      LastIndexOfUnique(r, '.', |name|);
      EditorLanguage.ExtensionAfterLastDot(r);
      assert r[|name| + 1..] == "js";
    }
  }

  datatype FileSubmission = FileSubmission(name: string, kind: string)

  class FileDialog {
    const initialName: string
    var name: string
    var fileType: string
    var error: string

    /** `type || 'file'`: a missing or empty type prop means a file. */
    constructor (initialName: string, kind: Option<string>)
      ensures this.initialName == initialName && name == initialName && error == ""
      ensures fileType == if kind.Some? && kind.value != "" then kind.value else "file"
    {
      this.initialName := initialName;
      name := initialName;
      fileType := if kind.Some? && kind.value != "" then kind.value else "file";
      error := "";
    }

    /** Typing replaces the name and clears a shown error. */
    method NameChange(value: string)
      modifies this
      ensures name == value && error == "" && fileType == old(fileType)
    {
      name := value;
      if error != "" {
        error := "";
      }
    }

    method TypeChange(value: string)
      modifies this
      ensures fileType == value && name == old(name) && error == old(error)
    {
      fileType := value;
    }

    /** A blank name only sets the error; otherwise the completed name is
        submitted and the form is reset. */
    method Submit() returns (submitted: Option<FileSubmission>)
      modifies this
      ensures Blank(old(name)) ==> submitted == None && error == EmptyNameError && name == old(name)
      ensures !Blank(old(name)) ==>
        submitted == Some(FileSubmission(SubmittedName(old(name), old(fileType)), old(fileType)))
        && name == "" && error == ""
      ensures fileType == old(fileType)
    {
      TrimEmptyIffBlank(name);
      if Trim(name) == "" {
        error := EmptyNameError;
        return None;
      }
      var typed := name;
      if fileType == "file" && !Contains(typed, ".") {
        name := typed + ".js";
      }
      submitted := Some(FileSubmission(SubmittedName(typed, fileType), fileType));
      name := "";
      error := "";
    }

    /** Closing restores the initial name and clears the error. */
    method Close()
      modifies this
      ensures name == initialName && error == "" && fileType == old(fileType)
    {
      name := initialName;
      error := "";
    }
  }

  datatype ProjectSubmission = ProjectSubmission(name: string, description: string)

  /** What `ProjectDialog` hands to `onSubmit` for a name and description,
      `None` when the name is blank. */
  function ProjectSubmitted(name: string, description: string): (r: Option<ProjectSubmission>)
    ensures r.None? <==> Blank(name)
    ensures r.Some? ==> r.value == ProjectSubmission(Trim(name), Trim(description))
    ensures r.Some? ==> r.value.name != "" && Trim(r.value.name) == r.value.name
    ensures r.Some? ==> !IsSpace(r.value.name[0]) && !IsSpace(r.value.name[|r.value.name| - 1])
    ensures r.Some? ==> Trim(r.value.description) == r.value.description
  {
    TrimEmptyIffBlank(name);
    TrimIdempotent(name);
    TrimIdempotent(description);
    TrimMargins(name);
    if Trim(name) == "" then None else Some(ProjectSubmission(Trim(name), Trim(description)))
  }

  class ProjectDialog {
    const initialName: string
    const initialDescription: string
    var name: string
    var description: string
    var nameError: string

    constructor (initialName: string, initialDescription: string)
      ensures this.initialName == initialName && this.initialDescription == initialDescription
      ensures name == initialName && description == initialDescription && nameError == ""
    {
      this.initialName := initialName;
      this.initialDescription := initialDescription;
      name := initialName;
      description := initialDescription;
      nameError := "";
    }

    method NameChange(value: string)
      modifies this
      ensures name == value && nameError == "" && description == old(description)
    {
      name := value;
      if nameError != "" {
        nameError := "";
      }
    }

    method DescriptionChange(value: string)
      modifies this
      ensures description == value && name == old(name) && nameError == old(nameError)
    {
      description := value;
    }

    /** A blank name only sets the error; otherwise the trimmed fields are
        submitted and the form is reset. */
    method Submit() returns (submitted: Option<ProjectSubmission>)
      modifies this
      ensures submitted == ProjectSubmitted(old(name), old(description))
      ensures submitted.None? ==> nameError == EmptyNameError && name == old(name) && description == old(description)
      ensures submitted.Some? ==> name == "" && description == "" && nameError == ""
    {
      TrimEmptyIffBlank(name);
      if Trim(name) == "" {
        nameError := EmptyNameError;
        return None;
      }
      submitted := Some(ProjectSubmission(Trim(name), Trim(description)));
      name := "";
      description := "";
      nameError := "";
    }

    method Close()
      modifies this
      ensures name == initialName && description == initialDescription && nameError == ""
    {
      name := initialName;
      description := initialDescription;
      nameError := "";
    }
  }
}
