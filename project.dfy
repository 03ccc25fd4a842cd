/** The project resource: created without polling; deleted with a NotFound
    treated as already gone, then polled from "Created" to "Deleted". */
module Project {
  import opened Remote
  import opened Poll
  import opened Driver

  const Kind: string := "project"

  /** ProjectRefreshFunc: "Created" for any project that is found, whatever
      its state field says; "Deleted" when it is not found; "" with the error
      otherwise. */
  function Refresh(got: Outcome<Snapshot>): (r: Poll.Refresh)
    ensures got.Ok? ==> r == Poll.Refresh("Created", None)
    ensures got.Err? && IsNotFound(got.error) ==> r == Poll.Refresh(Deleted, None)
    ensures got.Err? && !IsNotFound(got.error) ==> r == Poll.Refresh("", Some(got.error))
  {
    Classify(got, (s: Snapshot) => "Created")
  }

  /** Against the project delete wait, every error-free label is pending or
      target: a found project keeps the wait polling, a missing one ends it,
      and only an error other than NotFound fails it. */
  lemma RefreshAgainstDeleteWait(got: Outcome<Snapshot>)
    ensures Refresh(got).error.None? ==>
      Refresh(got).state in ProjectDeleteWait.pending + ProjectDeleteWait.target
    ensures Pends(Refresh(got), ProjectDeleteWait) <==> got.Ok?
    ensures Reaches(Refresh(got), ProjectDeleteWait) <==> got.Err? && IsNotFound(got.error)
    ensures Fails(Refresh(got), ProjectDeleteWait) <==> got.Err? && !IsNotFound(got.error)
  {
  }

  /** The calls of Delete. */
  function DeletePlan(h: string): seq<Step> {
    [Step(Delete(h), AbsentIsDone), AwaitStep(Kind, h, ProjectDeleteWait, "delete")]
  }

  /** resourceProjectCreate: a failed Create is returned with no id; otherwise
      the project's name becomes the id at once, with no wait, and Read
      follows. */
  method CreateResource(d: ResourceData, name: string, created: Outcome<Snapshot>, reply: Call -> Option<Error>)
    returns (err: Option<Error>, calls: seq<Call>)
    modifies d
    ensures created.Err? ==> err == Some(created.error) && calls == [Create(name)] && d.id == old(d.id)
    ensures created.Ok? ==>
      var h, e := created.value.handle, reply(Get(created.value.handle));
      && calls == [Create(name), Get(h)]
      && (e.None? ==> err.None? && d.id == h)
      && (e.Some? && IsNotFound(e.value) ==> err.None? && d.id == "")
      && (e.Some? && !IsNotFound(e.value) ==> err == e && d.id == h)
    ensures d.fields == old(d.fields)
  {
    calls := [Create(name)];
    if created.Err? {
      return Some(created.error), calls;
    }
    d.id := created.value.handle;
    var readCalls;
    err, readCalls := ReadResource(d, reply);
    calls := calls + readCalls;
  }

  /** resourceProjectDelete: a NotFound Delete clears the id without polling;
      any other Delete error is returned with the id kept; otherwise wait
      until the project is no longer found and clear the id only once that
      wait succeeded. */
  method DeleteResource(d: ResourceData, reply: Call -> Option<Error>)
    returns (err: Option<Error>, calls: seq<Call>)
    modifies d
    ensures var r := Execute(DeletePlan(old(d.id)), reply);
      calls == r.issued && err == ErrorOf(r.end) && d.id == (if r.end.Failed? then old(d.id) else "")
    ensures var h, e := old(d.id), reply(Delete(old(d.id)));
      && (e.Some? && IsNotFound(e.value) ==> err.None? && calls == [Delete(h)] && d.id == "")
      && (e.Some? && !IsNotFound(e.value) ==> err == e && calls == [Delete(h)] && d.id == h)
      && (e.None? ==>
            var w := reply(Await(h, ProjectDeleteWait));
            && calls == [Delete(h), Await(h, ProjectDeleteWait)]
            && (w.None? ==> err.None? && d.id == "")
            && (w.Some? ==> err == Some(Waiting(Kind, h, "delete", w.value)) && d.id == h))
    ensures d.fields == old(d.fields)
  {
    var h := d.id;
    ExecutePair(DeletePlan(h)[0], DeletePlan(h)[1], [], reply);
    assert DeletePlan(h) == [DeletePlan(h)[0], DeletePlan(h)[1]] + [];
    var end;
    calls, end := Perform(DeletePlan(h), reply);
    err := ErrorOf(end);
    if !end.Failed? {
      d.id := "";
    }
  }
}
