/** The system policy binding resource: one binding of the system policy,
    identified by its role. */
module SystemPolicyBinding {
  import opened Remote
  import opened Driver
  import opened Iam

  const MembersField: string := "members"

  /** resourceSystemPolicyBindingRead: the members of the first binding for
      the id's role are recorded; with no such binding the id is cleared. A
      Get error is returned and the record is left alone. */
  method Read(d: ResourceData, store: PolicyStore, failure: Option<Error>) returns (err: Option<Error>)
    modifies d
    ensures failure.Some? ==> err == failure && d.id == old(d.id) && d.fields == old(d.fields)
    ensures failure.None? ==> err.None?
    ensures failure.None? && MembersOf(store.Document(System), old(d.id)).None? ==>
      d.id == "" && d.fields == old(d.fields)
    ensures failure.None? && MembersOf(store.Document(System), old(d.id)).Some? ==>
      d.id == old(d.id) &&
      d.fields == old(d.fields)[MembersField := Strs(MembersOf(store.Document(System), old(d.id)).value)]
  {
    var got := ReadBinding(store, System, d.id, failure);
    if got.Err? {
      return Some(got.error);
    }
    if got.value.None? {
      d.id := "";
    } else {
      d.fields := d.fields[MembersField := Strs(got.value.value)];
    }
    err := None;
  }

  /** resourceSystemPolicyBindingUpdate: upsert (role, members) under the
      id's role, then Read. The policy is untouched when Get or Set fails;
      when the role is the id, as Create makes it, the Read that follows
      records exactly the members written. */
  method Update(d: ResourceData, store: PolicyStore, role: string, members: seq<string>,
                getFailure: Option<Error>, setFailure: Option<Error>, readFailure: Option<Error>)
    returns (err: Option<Error>)
    modifies d, store
    ensures getFailure.Some? || setFailure.Some? ==>
      err == (if getFailure.Some? then getFailure else setFailure) &&
      store.documents == old(store.documents) && d.id == old(d.id) && d.fields == old(d.fields)
    ensures getFailure.None? && setFailure.None? ==>
      store.documents == old(store.documents)[System := Upserted(old(store.Document(System)), old(d.id), Binding(role, members))]
    ensures getFailure.None? && setFailure.None? && readFailure.Some? ==>
      err == readFailure && d.id == old(d.id) && d.fields == old(d.fields)
    ensures getFailure.None? && setFailure.None? && readFailure.None? && role == old(d.id) ==>
      err.None? && d.id == old(d.id) && d.fields == old(d.fields)[MembersField := Strs(members)]
  {
    var written := CopyMembers(members);
    err := ReadModifyWrite(store, System, Upsert(d.id, Binding(role, written)), getFailure, setFailure);
    if err.Some? {
      return;
    }
    UpsertThenRead(old(store.Document(System)), d.id, members);
    err := Read(d, store, readFailure);
  }

  /** resourceSystemPolicyBindingCreate: the id becomes the role, then
      Update. The id stays set when the update fails. */
  method Create(d: ResourceData, store: PolicyStore, role: string, members: seq<string>,
                getFailure: Option<Error>, setFailure: Option<Error>, readFailure: Option<Error>)
    returns (err: Option<Error>)
    modifies d, store
    ensures getFailure.Some? || setFailure.Some? ==>
      err == (if getFailure.Some? then getFailure else setFailure) &&
      store.documents == old(store.documents) && d.id == role && d.fields == old(d.fields)
    ensures getFailure.None? && setFailure.None? ==>
      store.documents == old(store.documents)[System := Upserted(old(store.Document(System)), role, Binding(role, members))]
    ensures getFailure.None? && setFailure.None? && readFailure.Some? ==>
      err == readFailure && d.id == role && d.fields == old(d.fields)
    ensures getFailure.None? && setFailure.None? && readFailure.None? ==>
      err.None? && d.id == role && d.fields == old(d.fields)[MembersField := Strs(members)]
  {
    d.id := role;
    err := Update(d, store, role, members, getFailure, setFailure, readFailure);
  }

  /** resourceSystemPolicyBindingDelete: remove the first binding for the
      id's role; the id is cleared only when the policy was written. */
  method Delete(d: ResourceData, store: PolicyStore, getFailure: Option<Error>, setFailure: Option<Error>)
    returns (err: Option<Error>)
    modifies d, store
    ensures err == (if getFailure.Some? then getFailure else setFailure)
    ensures err.Some? ==> store.documents == old(store.documents) && d.id == old(d.id)
    ensures err.None? ==>
      store.documents == old(store.documents)[System := Removed(old(store.Document(System)), old(d.id))] &&
      d.id == ""
    ensures d.fields == old(d.fields)
  {
    err := ReadModifyWrite(store, System, Unbind(d.id), getFailure, setFailure);
    if err.Some? {
      return;
    }
    d.id := "";
  }
}
