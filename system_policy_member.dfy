/** The system policy member resource: one member of one role in the system
    policy, identified by "role/member". */
module SystemPolicyMember {
  import opened Remote
  import opened Driver
  import opened Iam
  import opened CompositeId

  /** resourceSystemPolicyMemberRead: Get the system policy, then split the
      id into role and member; the id is kept exactly when the member is in
      the first binding for the role, and cleared otherwise. */
  method Read(d: ResourceData, store: PolicyStore, failure: Option<Error>) returns (err: Option<Error>)
    modifies d
    ensures failure.Some? ==> err == failure && d.id == old(d.id)
    ensures failure.None? && Pair(old(d.id)).Err? ==>
      err == Some(Pair(old(d.id)).error) && d.id == old(d.id)
    ensures failure.None? && Pair(old(d.id)).Ok? ==>
      var (role, member) := Pair(old(d.id)).value;
      err.None? && d.id == (if HasMember(store.Document(System), role, member) then old(d.id) else "")
    ensures d.fields == old(d.fields)
  {
    var got := store.Get(System, failure);
    if got.Err? {
      return Some(got.error);
    }
    var address := Pair(d.id);
    if address.Err? {
      return Some(address.error);
    }
    var (role, member) := address.value;
    var memberIndex := got.value.FindMemberOf(role, member);
    if memberIndex == -1 {
      d.id := "";
    }
    err := None;
  }

  /** resourceSystemPolicyMemberCreate: add the member to the role (to the
      last binding for it, or in a new binding), set the id to
      "role/member", then Read. With one binding per role and no separator
      in role or member, the Read finds the member and keeps the id. */
  method Create(d: ResourceData, store: PolicyStore, role: string, member: string,
                getFailure: Option<Error>, setFailure: Option<Error>, readFailure: Option<Error>)
    returns (err: Option<Error>)
    modifies d, store
    ensures getFailure.Some? || setFailure.Some? ==>
      err == (if getFailure.Some? then getFailure else setFailure) &&
      store.documents == old(store.documents) && d.id == old(d.id)
    ensures getFailure.None? && setFailure.None? ==>
      store.documents == old(store.documents)[System := MemberAdded(old(store.Document(System)), role, member)]
    ensures getFailure.None? && setFailure.None? && readFailure.Some? ==>
      err == readFailure && d.id == Join([role, member])
    ensures getFailure.None? && setFailure.None? && readFailure.None? &&
            Separator !in role && Separator !in member ==>
      err.None? &&
      d.id == (if HasMember(MemberAdded(old(store.Document(System)), role, member), role, member)
               then Join([role, member]) else "")
    ensures getFailure.None? && setFailure.None? && readFailure.None? &&
            Separator !in role && Separator !in member && UniqueRoles(old(store.Document(System))) ==>
      err.None? && d.id == Join([role, member])
    ensures d.fields == old(d.fields)
  {
    err := ReadModifyWrite(store, System, AddMember(role, member), getFailure, setFailure);
    if err.Some? {
      return;
    }
    d.id := Join([role, member]);
    if Separator !in role && Separator !in member {
      PairOfJoin(role, member);
    }
    if UniqueRoles(old(store.Document(System))) {
      AddThenHas(old(store.Document(System)), role, member);
    }
    err := Read(d, store, readFailure);
  }

  /** resourceSystemPolicyMemberDelete: split the id, take the first
      occurrence of the member out of the first binding for the role (the
      binding stays, possibly empty), and clear the id once the policy was
      written. */
  method Delete(d: ResourceData, store: PolicyStore, getFailure: Option<Error>, setFailure: Option<Error>)
    returns (err: Option<Error>)
    modifies d, store
    ensures Pair(old(d.id)).Err? ==>
      err == Some(Pair(old(d.id)).error) && store.documents == old(store.documents) && d.id == old(d.id)
    ensures Pair(old(d.id)).Ok? ==>
      var (role, member) := Pair(old(d.id)).value;
      && err == (if getFailure.Some? then getFailure else setFailure)
      && (err.Some? ==> store.documents == old(store.documents) && d.id == old(d.id))
      && (err.None? ==>
            store.documents == old(store.documents)[System := MemberRemoved(old(store.Document(System)), role, member)] &&
            d.id == "")
    ensures d.fields == old(d.fields)
  {
    var address := Pair(d.id);
    if address.Err? {
      return Some(address.error);
    }
    var (role, member) := address.value;
    err := ReadModifyWrite(store, System, RemoveMember(role, member), getFailure, setFailure);
    if err.Some? {
      return;
    }
    d.id := "";
  }
}
