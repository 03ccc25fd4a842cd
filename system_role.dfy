/** The system role resource: created, polled until "Created", then updated;
    a NotFound from Delete means the role is gone. The Update hook reads an
    attribute the schema does not declare. */
module SystemRole {
  import opened Remote
  import opened Poll
  import opened Driver
  import opened Utils

  const Kind: string := "global role"
  const NameField: string := "name"
  const PermissionsField: string := "permissions"
  /** The attribute the role Update reads. The schema does not declare it. */
  const PoliciesField: string := "policies"
  /** The attributes the system role schema declares. */
  const Schema: set<string> := {NameField, PermissionsField}

  /** The calls of the corrected Update: the role Update carrying the
      permissions, then Read. */
  function UpdatePlan(h: string, permissions: seq<string>): seq<Step> {
    [Step(Update(h, permissions), AbsentIsDone), ReadStep(h)]
  }

  /** The calls of Delete. */
  function DeletePlan(h: string): seq<Step> {
    [Step(Delete(h), AbsentIsDone), AwaitStep(Kind, h, DeleteWait, "delete")]
  }

  /** Whatever a role record holds, its "policies" list cannot be read while
      its "permissions" list can. */
  lemma PoliciesUnreadable(fields: map<string, Value>)
    ensures GetList(fields, PoliciesField, Schema) == Err(UndeclaredField(PoliciesField))
    ensures GetList(fields, PermissionsField, Schema).Ok?
  {
  }

  /** resourceSystemRoleUpdate as written: it reads the list "policies",
      which the schema does not declare, so the read panics before the role
      Update is sent; no call is issued and the record is left alone. */
  method UpdateResource(d: ResourceData) returns (err: Option<Error>, calls: seq<Call>)
    ensures err == Some(UndeclaredField(PoliciesField)) && calls == []
  {
    var policies := GetList(d.fields, PoliciesField, Schema);
    err, calls := Some(policies.error), [];
  }

  /** resourceSystemRoleUpdate as evidently intended: the role Update carries
      the declared "permissions" list; a NotFound from it clears the id and
      returns nil without a Read; another error is returned; otherwise Read. */
  method UpdatePermissions(d: ResourceData, reply: Call -> Option<Error>)
    returns (err: Option<Error>, calls: seq<Call>)
    modifies d
    ensures var r := Execute(UpdatePlan(old(d.id), GetList(old(d.fields), PermissionsField, Schema).value), reply);
      calls == r.issued && err == ErrorOf(r.end) && d.id == (if r.end.Absent? then "" else old(d.id))
    ensures var h, permissions := old(d.id), GetList(old(d.fields), PermissionsField, Schema).value;
      var e := reply(Update(h, permissions));
      && (e.Some? && IsNotFound(e.value) ==> err.None? && calls == [Update(h, permissions)] && d.id == "")
      && (e.Some? && !IsNotFound(e.value) ==> err == e && calls == [Update(h, permissions)] && d.id == h)
      && (e.None? ==> calls == [Update(h, permissions), Get(h)])
      && (PermissionsField in old(d.fields) && old(d.fields)[PermissionsField].Strs? ==>
            permissions == old(d.fields)[PermissionsField].items)
    ensures d.fields == old(d.fields)
  {
    var h := d.id;
    var permissions := GetList(d.fields, PermissionsField, Schema).value;
    var plan := UpdatePlan(h, permissions);
    ExecutePair(plan[0], plan[1], [], reply);
    assert plan == [plan[0], plan[1]] + [];
    var end;
    calls, end := Perform(plan, reply);
    err := ErrorOf(end);
    if end.Absent? {
      d.id := "";
    }
  }

  /** resourceSystemRoleCreate: a failed Create is returned with no id;
      otherwise the role's name becomes the id before the wait, so a failed
      wait leaves it set; after a passed wait, Update fails on its read of
      "policies" before any further call, leaving the id set. */
  method CreateResource(d: ResourceData, name: string, created: Outcome<Snapshot>, reply: Call -> Option<Error>)
    returns (err: Option<Error>, calls: seq<Call>)
    modifies d
    ensures created.Err? ==> err == Some(created.error) && calls == [Create(name)] && d.id == old(d.id)
    ensures created.Ok? ==>
      var h := created.value.handle;
      var w := reply(Await(h, CreateWait));
      && calls == [Create(name), Await(h, CreateWait)]
      && d.id == h
      && err == Some(if w.Some? then Waiting(Kind, h, "become ready", w.value) else UndeclaredField(PoliciesField))
    ensures d.fields == old(d.fields)
  {
    calls := [Create(name)];
    if created.Err? {
      return Some(created.error), calls;
    }
    var h := created.value.handle;
    d.id := h;
    calls := calls + [Await(h, CreateWait)];
    var w := reply(Await(h, CreateWait));
    if w.Some? {
      return Some(Waiting(Kind, h, "become ready", w.value)), calls;
    }
    var updateCalls;
    err, updateCalls := UpdateResource(d);
    calls := calls + updateCalls;
  }

  /** resourceSystemRoleDelete: a NotFound Delete clears the id without
      polling; any other Delete error is returned with the id kept; otherwise
      wait for "Deleted" and clear the id only once that wait succeeded. */
  method DeleteResource(d: ResourceData, reply: Call -> Option<Error>)
    returns (err: Option<Error>, calls: seq<Call>)
    modifies d
    ensures var r := Execute(DeletePlan(old(d.id)), reply);
      calls == r.issued && err == ErrorOf(r.end) && d.id == (if r.end.Failed? then old(d.id) else "")
    ensures var h, e := old(d.id), reply(Delete(old(d.id)));
      && (e.Some? && IsNotFound(e.value) ==> err.None? && calls == [Delete(h)] && d.id == "")
      && (e.Some? && !IsNotFound(e.value) ==> err == e && calls == [Delete(h)] && d.id == h)
      && (e.None? ==>
            var w := reply(Await(h, DeleteWait));
            && calls == [Delete(h), Await(h, DeleteWait)]
            && (w.None? ==> err.None? && d.id == "")
            && (w.Some? ==> err == Some(Waiting(Kind, h, "delete", w.value)) && d.id == h))
    ensures d.fields == old(d.fields)
  {
    var h := d.id;
    ExecutePair(DeletePlan(h)[0], DeletePlan(h)[1], [], reply);
    assert DeletePlan(h) == [DeletePlan(h)[0], DeletePlan(h)[1]] + [];
    var end;
    calls, end := Perform(DeletePlan(h), reply);
    err := ErrorOf(end);
    if !end.Failed? {
      d.id := "";
    }
  }
}
