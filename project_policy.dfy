/** The project policy resource: the whole binding list of one project's
    policy, identified by the project's name. */
module ProjectPolicy {
  import opened Remote
  import opened Driver
  import opened Iam
  import opened Utils

  const BindingField: string := "binding"

  /** resourceProjectPolicyRead: every binding of the policy of the project
      the id names, in order and with its role and members, is recorded. */
  method Read(d: ResourceData, store: PolicyStore, failure: Option<Error>) returns (err: Option<Error>)
    modifies d
    ensures failure.Some? ==> err == failure && d.fields == old(d.fields)
    ensures failure.None? ==>
      err.None? && d.fields == old(d.fields)[BindingField := Bindings(store.Document(Project(old(d.id))))]
    ensures d.id == old(d.id)
  {
    var got := ReadPolicy(store, Project(d.id), failure);
    if got.Err? {
      return Some(got.error);
    }
    d.fields := d.fields[BindingField := Bindings(got.value)];
    err := None;
  }

  /** resourceProjectPolicyUpdate: the bindings of the id's project become
      the desired list, the previous ones are discarded, then Read records
      exactly the desired list. */
  method Update(d: ResourceData, store: PolicyStore, desired: seq<Binding>,
                getFailure: Option<Error>, setFailure: Option<Error>, readFailure: Option<Error>)
    returns (err: Option<Error>)
    modifies d, store
    ensures getFailure.Some? || setFailure.Some? ==>
      err == (if getFailure.Some? then getFailure else setFailure) &&
      store.documents == old(store.documents) && d.fields == old(d.fields)
    ensures getFailure.None? && setFailure.None? ==>
      store.documents == old(store.documents)[Project(old(d.id)) := desired] &&
      err == readFailure &&
      d.fields == (if readFailure.None? then old(d.fields)[BindingField := Bindings(desired)] else old(d.fields))
    ensures d.id == old(d.id)
  {
    err := ReadModifyWrite(store, Project(d.id), ReplaceAll(desired), getFailure, setFailure);
    if err.Some? {
      return;
    }
    err := Read(d, store, readFailure);
  }

  /** resourceProjectPolicyCreate: take the project as `getProject` finds it
      and record it as project_name; the id is the project's name, so Update
      and Read address that project's policy. */
  method Create(d: ResourceData, store: PolicyStore, configProject: string, desired: seq<Binding>,
                getFailure: Option<Error>, setFailure: Option<Error>, readFailure: Option<Error>)
    returns (err: Option<Error>)
    modifies d, store
    ensures GetProject(old(d.fields), configProject).Err? ==>
      err == Some(GetProject(old(d.fields), configProject).error) &&
      store.documents == old(store.documents) && d.id == old(d.id) && d.fields == old(d.fields)
    ensures GetProject(old(d.fields), configProject).Ok? ==>
      var project := GetProject(old(d.fields), configProject).value;
      var fields := old(d.fields)[ProjectNameField := Str(project)];
      && d.id == project
      && (getFailure.Some? || setFailure.Some? ==>
            err == (if getFailure.Some? then getFailure else setFailure) &&
            store.documents == old(store.documents) && d.fields == fields)
      && (getFailure.None? && setFailure.None? ==>
            store.documents == old(store.documents)[Project(project) := desired] && err == readFailure &&
            d.fields == (if readFailure.None? then fields[BindingField := Bindings(desired)] else fields))
  {
    var project := GetProject(d.fields, configProject);
    if project.Err? {
      return Some(project.error);
    }
    d.fields := d.fields[ProjectNameField := Str(project.value)];
    d.id := project.value;
    err := Update(d, store, desired, getFailure, setFailure, readFailure);
  }

  /** resourceProjectPolicyDelete: no remote call; the id is cleared and the
      policy is left as it is. */
  method Delete(d: ResourceData) returns (err: Option<Error>)
    modifies d
    ensures err.None? && d.id == "" && d.fields == old(d.fields)
  {
    d.id := "";
    err := None;
  }
}
