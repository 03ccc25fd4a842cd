/** The project policy binding resource: one binding of a project's policy,
    identified by "project/role". */
module ProjectPolicyBinding {
  import opened Remote
  import opened Driver
  import opened Iam
  import opened CompositeId
  import opened Utils

  const MembersField: string := "members"

  /** The project and role an id names, or the error of splitting it. */
  function Address(id: string): (r: Outcome<(Scope, string)>)
    ensures r.Ok? <==> Parts(id, 2).Ok?
    ensures r.Ok? ==> r.value == (Project(Split(id)[0]), Split(id)[1])
    ensures r.Err? ==> r.error == Parts(id, 2).error
  {
    var parts := Parts(id, 2);
    if parts.Err? then Err(parts.error) else Ok((Project(parts.value[0]), parts.value[1]))
  }

  /** An id built from a project and a role names them again when neither
      contains the separator. */
  lemma AddressOfJoin(project: string, role: string)
    requires Separator !in project && Separator !in role
    ensures Address(Join([project, role])) == Ok((Project(project), role))
  {
    PartsOfJoin([project, role]);
  }

  /** resourceProjectPolicyBindingRead: split the id into project and role
      (a malformed id fails before any call), Get that project's policy,
      record the members of the first binding for the role, and clear the id
      when there is none. */
  method Read(d: ResourceData, store: PolicyStore, failure: Option<Error>) returns (err: Option<Error>)
    modifies d
    ensures Address(old(d.id)).Err? ==>
      err == Some(Address(old(d.id)).error) && d.id == old(d.id) && d.fields == old(d.fields)
    ensures Address(old(d.id)).Ok? ==>
      var (scope, role) := Address(old(d.id)).value;
      && (failure.Some? ==> err == failure && d.id == old(d.id) && d.fields == old(d.fields))
      && (failure.None? && MembersOf(store.Document(scope), role).None? ==>
            err.None? && d.id == "" && d.fields == old(d.fields))
      && (failure.None? && MembersOf(store.Document(scope), role).Some? ==>
            err.None? && d.id == old(d.id) &&
            d.fields == old(d.fields)[MembersField := Strs(MembersOf(store.Document(scope), role).value)])
  {
    var address := Address(d.id);
    if address.Err? {
      return Some(address.error);
    }
    var (scope, role) := address.value;
    var got := ReadBinding(store, scope, role, failure);
    if got.Err? {
      return Some(got.error);
    }
    if got.value.None? {
      d.id := "";
    } else {
      d.fields := d.fields[MembersField := Strs(got.value.value)];
    }
    err := None;
  }

  /** resourceProjectPolicyBindingUpdate: upsert (role, members) under the
      role taken from the id, in the project taken from the id, then Read;
      the Read records exactly the members written. */
  method Update(d: ResourceData, store: PolicyStore, members: seq<string>,
                getFailure: Option<Error>, setFailure: Option<Error>, readFailure: Option<Error>)
    returns (err: Option<Error>)
    modifies d, store
    ensures Address(old(d.id)).Err? ==>
      err == Some(Address(old(d.id)).error) && store.documents == old(store.documents) &&
      d.id == old(d.id) && d.fields == old(d.fields)
    ensures Address(old(d.id)).Ok? ==>
      var (scope, role) := Address(old(d.id)).value;
      && (getFailure.Some? || setFailure.Some? ==>
            err == (if getFailure.Some? then getFailure else setFailure) &&
            store.documents == old(store.documents) && d.id == old(d.id) && d.fields == old(d.fields))
      && (getFailure.None? && setFailure.None? ==>
            store.documents == old(store.documents)[scope := Upserted(old(store.Document(scope)), role, Binding(role, members))])
      && (getFailure.None? && setFailure.None? && readFailure.Some? ==>
            err == readFailure && d.id == old(d.id) && d.fields == old(d.fields))
      && (getFailure.None? && setFailure.None? && readFailure.None? ==>
            err.None? && d.id == old(d.id) && d.fields == old(d.fields)[MembersField := Strs(members)])
  {
    var address := Address(d.id);
    if address.Err? {
      return Some(address.error);
    }
    var (scope, role) := address.value;
    var written := CopyMembers(members);
    err := ReadModifyWrite(store, scope, Upsert(role, Binding(role, written)), getFailure, setFailure);
    if err.Some? {
      return;
    }
    UpsertThenRead(old(store.Document(scope)), role, members);
    err := Read(d, store, readFailure);
  }

  /** resourceProjectPolicyBindingCreate: take the project as `getProject`
      finds it, record it as project_name, set the id to "project/role" and
      Update. The update addresses the project and role the id splits into:
      the given ones when neither contains the separator. */
  method Create(d: ResourceData, store: PolicyStore, configProject: string, role: string, members: seq<string>,
                getFailure: Option<Error>, setFailure: Option<Error>, readFailure: Option<Error>)
    returns (err: Option<Error>)
    modifies d, store
    ensures GetProject(old(d.fields), configProject).Err? ==>
      err == Some(GetProject(old(d.fields), configProject).error) &&
      store.documents == old(store.documents) && d.id == old(d.id) && d.fields == old(d.fields)
    ensures GetProject(old(d.fields), configProject).Ok? ==>
      Address(Join([GetProject(old(d.fields), configProject).value, role])).Ok?
    ensures GetProject(old(d.fields), configProject).Ok? ==>
      var project := GetProject(old(d.fields), configProject).value;
      var fields := old(d.fields)[ProjectNameField := Str(project)];
      var (scope, key) := Address(Join([project, role])).value;
      && (Separator !in project && Separator !in role ==> scope == Project(project) && key == role)
      && d.id == Join([project, role])
      && (getFailure.Some? || setFailure.Some? ==>
            err == (if getFailure.Some? then getFailure else setFailure) &&
            store.documents == old(store.documents) && d.fields == fields)
      && (getFailure.None? && setFailure.None? ==>
            store.documents == old(store.documents)[scope := Upserted(old(store.Document(scope)), key, Binding(key, members))])
      && (getFailure.None? && setFailure.None? && readFailure.Some? ==> err == readFailure && d.fields == fields)
      && (getFailure.None? && setFailure.None? && readFailure.None? ==>
            err.None? && d.fields == fields[MembersField := Strs(members)])
  {
    var project := GetProject(d.fields, configProject);
    if project.Err? {
      return Some(project.error);
    }
    d.fields := d.fields[ProjectNameField := Str(project.value)];
    d.id := Join([project.value, role]);
    JoinKeepsParts([project.value, role]);
    if Separator !in project.value && Separator !in role {
      AddressOfJoin(project.value, role);
    }
    err := Update(d, store, members, getFailure, setFailure, readFailure);
  }

  /** resourceProjectPolicyBindingDelete: remove the first binding for the
      id's role from the id's project; the id is cleared only when the
      policy was written. */
  method Delete(d: ResourceData, store: PolicyStore, getFailure: Option<Error>, setFailure: Option<Error>)
    returns (err: Option<Error>)
    modifies d, store
    ensures Address(old(d.id)).Err? ==>
      err == Some(Address(old(d.id)).error) && store.documents == old(store.documents) && d.id == old(d.id)
    ensures Address(old(d.id)).Ok? ==>
      var (scope, role) := Address(old(d.id)).value;
      && err == (if getFailure.Some? then getFailure else setFailure)
      && (err.Some? ==> store.documents == old(store.documents) && d.id == old(d.id))
      && (err.None? ==>
            store.documents == old(store.documents)[scope := Removed(old(store.Document(scope)), role)] && d.id == "")
    ensures d.fields == old(d.fields)
  {
    var address := Address(d.id);
    if address.Err? {
      return Some(address.error);
    }
    var (scope, role) := address.value;
    err := ReadModifyWrite(store, scope, Unbind(role), getFailure, setFailure);
    if err.Some? {
      return;
    }
    d.id := "";
  }
}
