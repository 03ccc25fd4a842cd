/** The project policy member resource: one member of one role in a
    project's policy, identified by "project/role/member". */
module ProjectPolicyMember {
  import opened Remote
  import opened Driver
  import opened Iam
  import opened CompositeId
  import opened Utils

  /** The project, role and member an id names, or the error of splitting it. */
  function Address(id: string): (r: Outcome<(Scope, string, string)>)
    ensures r.Ok? <==> Parts(id, 3).Ok?
    ensures r.Ok? ==> r.value == (Project(Split(id)[0]), Split(id)[1], Split(id)[2])
    ensures r.Err? ==> r.error == Parts(id, 3).error
  {
    var parts := Parts(id, 3);
    if parts.Err? then Err(parts.error) else Ok((Project(parts.value[0]), parts.value[1], parts.value[2]))
  }

  /** An id built from a project, a role and a member names them again when
      none contains the separator. */
  lemma AddressOfJoin(project: string, role: string, member: string)
    requires Separator !in project && Separator !in role && Separator !in member
    ensures Address(Join([project, role, member])) == Ok((Project(project), role, member))
  {
    PartsOfJoin([project, role, member]);
  }

  /** resourceProjectPolicyMemberRead: split the id first (a malformed id
      fails before any call), Get the project's policy; the id is kept
      exactly when the member is in the first binding for the role. */
  method Read(d: ResourceData, store: PolicyStore, failure: Option<Error>) returns (err: Option<Error>)
    modifies d
    ensures Address(old(d.id)).Err? ==> err == Some(Address(old(d.id)).error) && d.id == old(d.id)
    ensures Address(old(d.id)).Ok? ==>
      var (scope, role, member) := Address(old(d.id)).value;
      && (failure.Some? ==> err == failure && d.id == old(d.id))
      && (failure.None? ==>
            err.None? && d.id == (if HasMember(store.Document(scope), role, member) then old(d.id) else ""))
    ensures d.fields == old(d.fields)
  {
    var address := Address(d.id);
    if address.Err? {
      return Some(address.error);
    }
    var (scope, role, member) := address.value;
    var found := ReadMember(store, scope, role, member, failure);
    if found.Err? {
      return Some(found.error);
    }
    if !found.value {
      d.id := "";
    }
    err := None;
  }

  /** resourceProjectPolicyMemberCreate: take the project as `getProject`
      finds it and record it as project_name, add
      the member to the role in that project's policy, set the id to
      "project/role/member", then Read. With one binding per role and no
      separator in the parts, the Read finds the member and keeps the id. */
  method Create(d: ResourceData, store: PolicyStore, configProject: string, role: string, member: string,
                getFailure: Option<Error>, setFailure: Option<Error>, readFailure: Option<Error>)
    returns (err: Option<Error>)
    modifies d, store
    ensures GetProject(old(d.fields), configProject).Err? ==>
      err == Some(GetProject(old(d.fields), configProject).error) &&
      store.documents == old(store.documents) && d.id == old(d.id) && d.fields == old(d.fields)
    ensures GetProject(old(d.fields), configProject).Ok? ==>
      var project := GetProject(old(d.fields), configProject).value;
      var before := old(store.Document(Project(project)));
      && d.fields == old(d.fields)[ProjectNameField := Str(project)]
      && (getFailure.Some? || setFailure.Some? ==>
            err == (if getFailure.Some? then getFailure else setFailure) &&
            store.documents == old(store.documents) && d.id == old(d.id))
      && (getFailure.None? && setFailure.None? ==>
            store.documents == old(store.documents)[Project(project) := MemberAdded(before, role, member)])
      && (getFailure.None? && setFailure.None? && readFailure.Some? ==>
            err == readFailure && d.id == Join([project, role, member]))
      && (getFailure.None? && setFailure.None? && readFailure.None? &&
          Separator !in project && Separator !in role && Separator !in member && UniqueRoles(before) ==>
            err.None? && d.id == Join([project, role, member]))
  {
    var project := GetProject(d.fields, configProject);
    if project.Err? {
      return Some(project.error);
    }
    d.fields := d.fields[ProjectNameField := Str(project.value)];
    var scope := Project(project.value);
    ghost var before := store.Document(scope);
    err := ReadModifyWrite(store, scope, AddMember(role, member), getFailure, setFailure);
    if err.Some? {
      return;
    }
    d.id := Join([project.value, role, member]);
    JoinKeepsParts([project.value, role, member]);
    if Separator !in project.value && Separator !in role && Separator !in member {
      AddressOfJoin(project.value, role, member);
    }
    if UniqueRoles(before) {
      AddThenHas(before, role, member);
    }
    err := Read(d, store, readFailure);
  }

  /** resourceProjectPolicyMemberDelete: split the id, take the first
      occurrence of the member out of the first binding for the role in the
      project's policy, and clear the id once the policy was written. */
  method Delete(d: ResourceData, store: PolicyStore, getFailure: Option<Error>, setFailure: Option<Error>)
    returns (err: Option<Error>)
    modifies d, store
    ensures Address(old(d.id)).Err? ==>
      err == Some(Address(old(d.id)).error) && store.documents == old(store.documents) && d.id == old(d.id)
    ensures Address(old(d.id)).Ok? ==>
      var (scope, role, member) := Address(old(d.id)).value;
      && err == (if getFailure.Some? then getFailure else setFailure)
      && (err.Some? ==> store.documents == old(store.documents) && d.id == old(d.id))
      && (err.None? ==>
            store.documents == old(store.documents)[scope := MemberRemoved(old(store.Document(scope)), role, member)] &&
            d.id == "")
    ensures d.fields == old(d.fields)
  {
    var address := Address(d.id);
    if address.Err? {
      return Some(address.error);
    }
    var (scope, role, member) := address.value;
    err := ReadModifyWrite(store, scope, RemoveMember(role, member), getFailure, setFailure);
    if err.Some? {
      return;
    }
    d.id := "";
  }
}
