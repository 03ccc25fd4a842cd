/** The system policy resource: the whole binding list of the system policy. */
module SystemPolicy {
  import opened Remote
  import opened Driver
  import opened Iam

  const BindingField: string := "binding"

  /** resourceSystemPolicyRead: every binding of the system policy, in order
      and with its role and members, is recorded. */
  method Read(d: ResourceData, store: PolicyStore, failure: Option<Error>) returns (err: Option<Error>)
    modifies d
    ensures failure.Some? ==> err == failure && d.fields == old(d.fields)
    ensures failure.None? ==>
      err.None? && d.fields == old(d.fields)[BindingField := Bindings(store.Document(System))]
    ensures d.id == old(d.id)
  {
    var got := ReadPolicy(store, System, failure);
    if got.Err? {
      return Some(got.error);
    }
    d.fields := d.fields[BindingField := Bindings(got.value)];
    err := None;
  }

  /** resourceSystemPolicyUpdate: the system policy's bindings become the
      desired list, the previous ones are discarded, then Read records
      exactly the desired list. */
  method Update(d: ResourceData, store: PolicyStore, desired: seq<Binding>,
                getFailure: Option<Error>, setFailure: Option<Error>, readFailure: Option<Error>)
    returns (err: Option<Error>)
    modifies d, store
    ensures getFailure.Some? || setFailure.Some? ==>
      err == (if getFailure.Some? then getFailure else setFailure) &&
      store.documents == old(store.documents) && d.fields == old(d.fields)
    ensures getFailure.None? && setFailure.None? ==>
      store.documents == old(store.documents)[System := desired] &&
      err == readFailure &&
      d.fields == (if readFailure.None? then old(d.fields)[BindingField := Bindings(desired)] else old(d.fields))
    ensures d.id == old(d.id)
  {
    err := ReadModifyWrite(store, System, ReplaceAll(desired), getFailure, setFailure);
    if err.Some? {
      return;
    }
    err := Read(d, store, readFailure);
  }

  /** resourceSystemPolicyCreate: the id is a generated UUID (a failure to
      generate one is returned), then Update. */
  method Create(d: ResourceData, store: PolicyStore, generated: Outcome<string>, desired: seq<Binding>,
                getFailure: Option<Error>, setFailure: Option<Error>, readFailure: Option<Error>)
    returns (err: Option<Error>)
    modifies d, store
    ensures generated.Err? ==>
      err == Some(generated.error) && store.documents == old(store.documents) &&
      d.id == old(d.id) && d.fields == old(d.fields)
    ensures generated.Ok? ==> d.id == generated.value
    ensures generated.Ok? && (getFailure.Some? || setFailure.Some?) ==>
      err == (if getFailure.Some? then getFailure else setFailure) && store.documents == old(store.documents) &&
      d.fields == old(d.fields)
    ensures generated.Ok? && getFailure.None? && setFailure.None? ==>
      store.documents == old(store.documents)[System := desired] && err == readFailure &&
      d.fields == (if readFailure.None? then old(d.fields)[BindingField := Bindings(desired)] else old(d.fields))
  {
    if generated.Err? {
      return Some(generated.error);
    }
    d.id := generated.value;
    err := Update(d, store, desired, getFailure, setFailure, readFailure);
  }

  /** resourceSystemPolicyDelete: no remote call; the id is cleared and the
      policy is left as it is. */
  method Delete(d: ResourceData) returns (err: Option<Error>)
    modifies d
    ensures err.None? && d.id == "" && d.fields == old(d.fields)
  {
    d.id := "";
    err := None;
  }
}
