/** The shared machinery of the lifecycle operations (Create/Read/Update/Delete
    hooks): the Terraform record they mutate, the remote calls they issue, and
    the rule by which a sequence of calls stops at the first error that the
    operation does not tolerate. */
module Driver {
  import opened Remote
  import opened Poll

  /** A remote call issued by an operation. `Await` stands for one
      StateChangeConf.WaitForState with the given label sets. */
  datatype Call =
    | Get(handle: string)
      /** The Get of the network port an instance reports. */
    | GetPort(instance: string)
    | Create(name: string)
    | Clone(source: string, name: string)
    | Delete(handle: string)
    | Update(handle: string, permissions: seq<string>)
    | Detach(handle: string)
    | Grow(handle: string, size: int)
    | Attach(handle: string, instance: string)
    | Schedule(handle: string, schedulable: bool)
    | Await(handle: string, wait: Wait)
    | MemberAdd(image: string, project: string)
    | MemberList(image: string)
    | MemberRemove(image: string, project: string)

  /** A value stored in the record by d.Set. */
  datatype Value = Str(text: string) | Flag(on: bool) | Strs(items: seq<string>) | Bindings(bindings: seq<Binding>)

  /** Terraform's ResourceData: the record id (d.Id/d.SetId; "" means the
      resource is gone) and the attributes this model tracks. */
  class ResourceData {
    var id: string
    var fields: map<string, Value>

    constructor (id: string, fields: map<string, Value>)
      ensures this.id == id && this.fields == fields
    {
      this.id := id;
      this.fields := fields;
    }
  }

  /** How an operation treats an error reply to one of its calls. */
  datatype OnError =
      /** The error is returned as it is. */
    | Abort
      /** Only an API error whose status is not 409 is returned; any other error is ignored. */
    | TolerateConflict
      /** NotFound ends the operation successfully; other errors are returned. */
    | AbsentIsDone
      /** The error of a wait is returned wrapped as "Error waiting for <kind> (<handle>) to <goal>". */
    | WaitFor(kind: string, goal: string)

  datatype Step = Step(call: Call, onError: OnError)

  /** How a sequence of calls ended: all of them done, stopped early by a
      tolerated NotFound, or stopped by an error that is returned. */
  datatype End = Completed | Absent | Failed(error: Error)

  /** The calls actually issued, in order, and how the sequence ended. */
  datatype Run = Run(issued: seq<Call>, end: End)

  /** The wait for `w` on resource `h`, wrapped with the kind and goal of its error message. */
  function AwaitStep(kind: string, h: string, w: Wait, goal: string): Step {
    Step(Await(h, w), WaitFor(kind, goal))
  }

  /** What the operation does when step `s` fails with `e`: None carries on. */
  function Stop(s: Step, e: Error): Option<End> {
    match s.onError
    case Abort => Some(Failed(e))
    case TolerateConflict => if e.ApiError? && e.statusCode != 409 then Some(Failed(e)) else None
    case AbsentIsDone => if IsNotFound(e) then Some(Absent) else Some(Failed(e))
    case WaitFor(kind, goal) =>
      Some(Failed(Waiting(kind, if s.call.Await? then s.call.handle else "", goal, e)))
  }

  /** Step `s` lets the operation go on to its next call. */
  predicate Passes(s: Step, reply: Call -> Option<Error>) {
    reply(s.call).None? || Stop(s, reply(s.call).value).None?
  }

  /** Issues the calls of `plan` in order, each with the reply `reply` gives it,
      and stops after the first one that does not pass (ExecuteSpec). */
  function Execute(plan: seq<Step>, reply: Call -> Option<Error>): (r: Run)
    ensures |r.issued| <= |plan|
    ensures r.end.Completed? ==> |r.issued| == |plan|
    decreases |plan|
  {
    if plan == [] then Run([], Completed)
    else
      var e := reply(plan[0].call);
      var stop := if e.None? then None else Stop(plan[0], e.value);
      if stop.Some? then Run([plan[0].call], stop.value)
      else
        var rest := Execute(plan[1..], reply);
        Run([plan[0].call] + rest.issued, rest.end)
  }

  /** The error an operation returns for a run (nil unless it failed). */
  function ErrorOf(end: End): (err: Option<Error>)
    ensures err.Some? <==> end.Failed?
  {
    if end.Failed? then Some(end.error) else None
  }

  /** Running two plans one after the other is running their concatenation:
      the second starts only if the first completed. */
  lemma {:induction false} ExecuteAppend(p: seq<Step>, q: seq<Step>, reply: Call -> Option<Error>)
    ensures Execute(p + q, reply) ==
      (var rp := Execute(p, reply);
       if rp.end.Completed? then Run(rp.issued + Execute(q, reply).issued, Execute(q, reply).end) else rp)
    decreases |p|
  {
    if p == [] {
      assert p + q == q;
    } else {
      var pq := p + q;
      assert pq[0] == p[0];
      assert pq[1..] == p[1..] + q;
      var e := reply(p[0].call);
      var stop := if e.None? then None else Stop(p[0], e.value);
      if stop.None? {
        ExecuteAppend(p[1..], q, reply);
        var rp', rq := Execute(p[1..], reply), Execute(q, reply);
        assert Execute(pq, reply) == Run([p[0].call] + Execute(p[1..] + q, reply).issued, Execute(p[1..] + q, reply).end);
        assert Execute(p, reply) == Run([p[0].call] + rp'.issued, rp'.end);
        if rp'.end.Completed? {
          assert [p[0].call] + (rp'.issued + rq.issued) == ([p[0].call] + rp'.issued) + rq.issued;
        }
      }
    }
  }

  /** A run issues a prefix of the plan's calls: every call up to the first one
      that does not pass, and that call ends the run with the outcome its
      error handling gives; a run completes exactly when every call passes. */
  lemma {:induction false} ExecuteSpec(plan: seq<Step>, reply: Call -> Option<Error>)
    ensures var r := Execute(plan, reply);
      && (forall k :: 0 <= k < |r.issued| ==> r.issued[k] == plan[k].call)
      && (forall k :: 0 <= k < |r.issued| - 1 ==> Passes(plan[k], reply))
      && (r.end.Completed? <==> forall k :: 0 <= k < |plan| ==> Passes(plan[k], reply))
      && (!r.end.Completed? ==>
            |r.issued| > 0 && !Passes(plan[|r.issued| - 1], reply) &&
            Some(r.end) == Stop(plan[|r.issued| - 1], reply(plan[|r.issued| - 1].call).value))
    decreases |plan|
  {
    if plan != [] {
      var e := reply(plan[0].call);
      var stop := if e.None? then None else Stop(plan[0], e.value);
      if stop.None? {
        ExecuteSpec(plan[1..], reply);
        var rest := Execute(plan[1..], reply);
        var r := Execute(plan, reply);
        assert r == Run([plan[0].call] + rest.issued, rest.end);
        forall k | 0 <= k < |r.issued| ensures r.issued[k] == plan[k].call {
          if k > 0 { assert r.issued[k] == rest.issued[k - 1]; }
        }
        forall k | 0 <= k < |r.issued| - 1 ensures Passes(plan[k], reply) {
          if k > 0 { assert plan[k] == plan[1..][k - 1]; }
        }
        if forall k :: 0 <= k < |plan| ==> Passes(plan[k], reply) {
          assert forall k :: 0 <= k < |plan[1..]| ==> Passes(plan[1..][k], reply);
        }
        if rest.end.Completed? {
          forall k | 0 <= k < |plan| ensures Passes(plan[k], reply) {
            if k > 0 { assert plan[k] == plan[1..][k - 1]; }
          }
        }
      }
    }
  }

  /** A run ends as "already gone" only at a step that treats NotFound so,
      whose call was answered NotFound, and which is the last call issued. */
  lemma {:induction false} AbsentEnd(plan: seq<Step>, reply: Call -> Option<Error>)
    requires Execute(plan, reply).end.Absent?
    ensures var n := |Execute(plan, reply).issued|;
      && 0 < n <= |plan|
      && Execute(plan, reply).issued[n - 1] == plan[n - 1].call
      && plan[n - 1].onError.AbsentIsDone?
      && reply(plan[n - 1].call).Some? && IsNotFound(reply(plan[n - 1].call).value)
    decreases |plan|
  {
    var e := reply(plan[0].call);
    var stop := if e.None? then None else Stop(plan[0], e.value);
    if stop.None? {
      AbsentEnd(plan[1..], reply);
      var rest := Execute(plan[1..], reply);
      assert Execute(plan, reply).issued == [plan[0].call] + rest.issued;
    }
  }

  /** A call whose error the run does not tolerate is the last one it issues. */
  lemma FailureIsLast(plan: seq<Step>, reply: Call -> Option<Error>, k: nat)
    requires k < |Execute(plan, reply).issued|
    requires !Passes(plan[k], reply)
    ensures |Execute(plan, reply).issued| == k + 1
    ensures !Execute(plan, reply).end.Completed?
  {
    ExecuteSpec(plan, reply);
  }

  /** Unfolds one step of a run: the first call is issued; the rest of the
      plan runs only if that call passes. */
  lemma ExecuteCons(s: Step, rest: seq<Step>, reply: Call -> Option<Error>)
    ensures Execute([s] + rest, reply) ==
      if Passes(s, reply) then Run([s.call] + Execute(rest, reply).issued, Execute(rest, reply).end)
      else Run([s.call], Stop(s, reply(s.call).value).value)
  {
    assert ([s] + rest)[0] == s;
    assert ([s] + rest)[1..] == rest;
  }

  /** Running the two steps of a phase: the first call is issued, the second
      follows only if it passes, and the rest only if the second passes. */
  lemma ExecutePair(a: Step, w: Step, rest: seq<Step>, reply: Call -> Option<Error>)
    ensures Execute([a, w] + rest, reply) ==
      if !Passes(a, reply) then Run([a.call], Stop(a, reply(a.call).value).value)
      else if !Passes(w, reply) then Run([a.call, w.call], Stop(w, reply(w.call).value).value)
      else Run([a.call, w.call] + Execute(rest, reply).issued, Execute(rest, reply).end)
  {
    assert [a, w] + rest == [a] + ([w] + rest);
    ExecuteCons(a, [w] + rest, reply);
    ExecuteCons(w, rest, reply);
    assert [a.call] + ([w.call] + Execute(rest, reply).issued) == [a.call, w.call] + Execute(rest, reply).issued;
  }

  /** Issues the calls of `plan` one at a time, each answered by `reply`, and
      stops at the first that does not pass: the step-by-step form of Execute
      that the straight-line lifecycle hooks follow. */
  method Perform(plan: seq<Step>, reply: Call -> Option<Error>) returns (issued: seq<Call>, end: End)
    ensures Run(issued, end) == Execute(plan, reply)
  {
    issued := [];
    var i := 0;
    assert plan[0..] == plan;
    while i < |plan|
      invariant 0 <= i <= |plan|
      invariant Execute(plan, reply) == Run(issued + Execute(plan[i..], reply).issued, Execute(plan[i..], reply).end)
    {
      var s := plan[i];
      assert plan[i..] == [s] + plan[i + 1..];
      ExecuteCons(s, plan[i + 1..], reply);
      var e := reply(s.call);
      if e.Some? && Stop(s, e.value).Some? {
        return issued + [s.call], Stop(s, e.value).value;
      }
      assert issued + ([s.call] + Execute(plan[i + 1..], reply).issued) ==
             (issued + [s.call]) + Execute(plan[i + 1..], reply).issued;
      issued := issued + [s.call];
      i := i + 1;
    }
    assert plan[i..] == [];
    end := Completed;
  }

  /** The Get of a Read: NotFound means the resource is gone. */
  function ReadStep(h: string): Step {
    Step(Get(h), AbsentIsDone)
  }

  /** The Read hooks as far as the record id goes: a NotFound Get clears the
      id and is not an error, any other error is returned with the id kept,
      and a successful Get keeps the id (copying the snapshot's fields into
      the record is not modelled). */
  method ReadResource(d: ResourceData, reply: Call -> Option<Error>) returns (err: Option<Error>, calls: seq<Call>)
    modifies d
    ensures var r := Execute([ReadStep(old(d.id))], reply);
      calls == r.issued && err == ErrorOf(r.end) && d.id == (if r.end.Absent? then "" else old(d.id))
    ensures calls == [Get(old(d.id))]
    ensures var e := reply(Get(old(d.id)));
      && (e.None? ==> err.None? && d.id == old(d.id))
      && (e.Some? && IsNotFound(e.value) ==> err.None? && d.id == "")
      && (e.Some? && !IsNotFound(e.value) ==> err == e && d.id == old(d.id))
    ensures d.fields == old(d.fields)
  {
    ExecuteCons(ReadStep(d.id), [], reply);
    calls := [Get(d.id)];
    err := reply(Get(d.id));
    if err.Some? && IsNotFound(err.value) {
      d.id := "";
      err := None;
    }
  }
}
