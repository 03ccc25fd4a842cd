/** Where a project-scoped resource takes its project from: an attribute of
    its record, else the provider's configured project, else an error. */
module Utils {
  import opened Remote
  import opened Driver

  /** The attribute the provider's project lookup reads. No resource schema
      declares it. */
  const ProjectField: string := "project"
  /** The attribute every project-scoped resource schema declares. */
  const ProjectNameField: string := "project_name"

  /** d.GetOk(key) for a string attribute: the value when the attribute is
      set to a non-empty string; an attribute the schema does not declare is
      never in the record and so never set. */
  function GetOk(fields: map<string, Value>, key: string): (r: Option<string>)
    ensures r.Some? ==> key in fields && fields[key] == Str(r.value) && r.value != ""
    ensures r.None? ==> key !in fields || !fields[key].Str? || fields[key].text == ""
  {
    if key in fields && fields[key].Str? && fields[key].text != "" then Some(fields[key].text) else None
  }

  /** d.Get(key).([]interface{}) for a list attribute, given the attributes
      the resource's schema declares: a declared attribute reads as its list,
      or as the empty list when unset; an undeclared one reads as nil and the
      type assertion panics. */
  function GetList(fields: map<string, Value>, key: string, declared: set<string>): (r: Outcome<seq<string>>)
    ensures r.Err? <==> key !in declared
    ensures r.Err? ==> r.error == UndeclaredField(key)
    ensures key in declared && key in fields && fields[key].Strs? ==> r == Ok(fields[key].items)
    ensures key in declared && !(key in fields && fields[key].Strs?) ==> r == Ok([])
  {
    if key !in declared then Err(UndeclaredField(key))
    else if key in fields && fields[key].Strs? then Ok(fields[key].items)
    else Ok([])
  }

  /** getProjectFromSchema: the attribute `field` when it is set and `field`
      is non-empty; otherwise the configured project when non-empty;
      otherwise the error "<field>: required field is not set". */
  function GetProjectFromSchema(field: string, fields: map<string, Value>, configProject: string): (r: Outcome<string>)
    ensures GetOk(fields, field).Some? && field != "" ==> r == Ok(GetOk(fields, field).value)
    ensures (GetOk(fields, field).None? || field == "") && configProject != "" ==> r == Ok(configProject)
    ensures (GetOk(fields, field).None? || field == "") && configProject == "" ==> r == Err(MissingField(field))
    ensures r.Ok? ==> r.value != ""
  {
    var got := GetOk(fields, field);
    if got.Some? && field != "" then Ok(got.value)
    else if configProject != "" then Ok(configProject)
    else Err(MissingField(field))
  }

  /** getProject as written: it delegates to getProjectFromSchema with the
      attribute "project". */
  function GetProject(fields: map<string, Value>, configProject: string): (r: Outcome<string>)
    ensures GetOk(fields, ProjectField).Some? ==> r == Ok(GetOk(fields, ProjectField).value)
    ensures GetOk(fields, ProjectField).None? ==>
      r == if configProject != "" then Ok(configProject) else Err(MissingField(ProjectField))
  {
    GetProjectFromSchema(ProjectField, fields, configProject)
  }

  /** The lookup the project-scoped resources evidently intend: their own
      "project_name" attribute first. The resource hooks of this model keep
      the lookup as written, `GetProject`. */
  function GetProjectName(fields: map<string, Value>, configProject: string): (r: Outcome<string>)
    ensures GetOk(fields, ProjectNameField).Some? ==> r == Ok(GetOk(fields, ProjectNameField).value)
    ensures GetOk(fields, ProjectNameField).None? ==>
      r == if configProject != "" then Ok(configProject) else Err(MissingField(ProjectNameField))
  {
    GetProjectFromSchema(ProjectNameField, fields, configProject)
  }

  /** As written, a record holding only declared attributes never influences
      the project: the result depends on the configured project alone. */
  lemma GetProjectIgnoresRecord(fields: map<string, Value>, configProject: string)
    requires ProjectField !in fields
    ensures GetProject(fields, configProject) ==
      if configProject != "" then Ok(configProject) else Err(MissingField(ProjectField))
  {
  }

  /** The discrepancy on a concrete record: project_name = "p1" is ignored
      in favour of the configured "p0", and with no configured project the
      lookup fails although the record names one. */
  lemma ProjectNameIgnored()
    ensures GetProject(map[ProjectNameField := Str("p1")], "p0") == Ok("p0")
    ensures GetProject(map[ProjectNameField := Str("p1")], "") == Err(MissingField(ProjectField))
  {
  }

  /** The corrected lookup: a set project_name wins over the configuration,
      an unset one falls back to it, and the error names project_name. */
  lemma GetProjectNamePrecedence(fields: map<string, Value>, configProject: string, p: string)
    ensures p != "" && ProjectNameField in fields && fields[ProjectNameField] == Str(p) ==>
      GetProjectName(fields, configProject) == Ok(p)
    ensures ProjectNameField !in fields ==>
      GetProjectName(fields, configProject) ==
        if configProject != "" then Ok(configProject) else Err(MissingField(ProjectNameField))
  {
  }
}
