/** IAM policy documents and the read-modify-write cycle that edits them.
    A policy is an ordered list of bindings (role, members). The edits made by
    the policy resources (upsert or remove a binding by role, add or remove a
    member, replace every binding) are methods of Policy that update its list
    in place; each is proved against a specification function on the list, and
    the lemmas below state what the edits promise. */
module Iam {
  import opened Remote

  /** At most one binding per role. The API does not enforce it and the
      policy resources can write lists that break it. */
  ghost predicate UniqueRoles(bs: seq<Binding>) {
    forall j, k :: 0 <= j < k < |bs| ==> bs[j].role != bs[k].role
  }

  /** Index of the first binding for `role`, -1 if there is none. */
  function FirstIndex(bs: seq<Binding>, role: string): (i: int)
    ensures -1 <= i < |bs|
    ensures 0 <= i ==> bs[i].role == role
    ensures forall k :: 0 <= k < |bs| && (i == -1 || k < i) ==> bs[k].role != role
    decreases |bs|
  {
    if bs == [] then -1
    else if bs[0].role == role then 0
    else
      var j := FirstIndex(bs[1..], role);
      if j == -1 then -1 else j + 1
  }

  /** Index of the last binding for `role`, -1 if there is none. */
  function LastIndex(bs: seq<Binding>, role: string): (i: int)
    ensures -1 <= i < |bs|
    ensures 0 <= i ==> bs[i].role == role
    ensures forall k :: 0 <= k < |bs| && i < k ==> bs[k].role != role
    decreases |bs|
  {
    if bs == [] then -1
    else if bs[|bs| - 1].role == role then |bs| - 1
    else LastIndex(bs[..|bs| - 1], role)
  }

  /** Index of the first occurrence of `m` in `ms`, -1 if absent. */
  function IndexOf(ms: seq<string>, m: string): (j: int)
    ensures -1 <= j < |ms|
    ensures 0 <= j ==> ms[j] == m
    ensures forall k :: 0 <= k < |ms| && (j == -1 || k < j) ==> ms[k] != m
    decreases |ms|
  {
    if ms == [] then -1
    else if ms[0] == m then 0
    else
      var j := IndexOf(ms[1..], m);
      if j == -1 then -1 else j + 1
  }

  /** What a binding Read reports: the members of the first binding for the role. */
  function MembersOf(bs: seq<Binding>, role: string): Option<seq<string>> {
    var i := FirstIndex(bs, role);
    if i == -1 then None else Some(bs[i].members)
  }

  /** What a member Read checks: the member is in the first binding for the role. */
  predicate HasMember(bs: seq<Binding>, role: string, member: string) {
    var i := FirstIndex(bs, role);
    i != -1 && member in bs[i].members
  }

  /** Upsert: the first binding for `key` is replaced by `b`; with none, `b`
      is appended at the end. Every other binding keeps its place. */
  function Upserted(bs: seq<Binding>, key: string, b: Binding): (r: seq<Binding>)
    ensures |r| == if FirstIndex(bs, key) == -1 then |bs| + 1 else |bs|
    ensures FirstIndex(bs, key) == -1 ==> r[|bs|] == b
    ensures FirstIndex(bs, key) != -1 ==> r[FirstIndex(bs, key)] == b
    ensures forall k :: 0 <= k < |bs| && k != FirstIndex(bs, key) ==> r[k] == bs[k]
  {
    var i := FirstIndex(bs, key);
    if i == -1 then bs + [b] else bs[i := b]
  }

  /** Remove binding: only the first binding for `role` is dropped; the rest
      keep their order. */
  function Removed(bs: seq<Binding>, role: string): (r: seq<Binding>)
    ensures FirstIndex(bs, role) == -1 ==> r == bs
    ensures FirstIndex(bs, role) != -1 ==>
      var i := FirstIndex(bs, role);
      && |r| == |bs| - 1
      && (forall k :: 0 <= k < i ==> r[k] == bs[k])
      && (forall k :: i <= k < |r| ==> r[k] == bs[k + 1])
  {
    var i := FirstIndex(bs, role);
    if i == -1 then bs else bs[..i] + bs[i + 1..]
  }

  /** Add member: `member` is appended to the members of the LAST binding for
      `role`, whether or not it is there already; with no binding,
      (role, [member]) is appended at the end. */
  function MemberAdded(bs: seq<Binding>, role: string, member: string): (r: seq<Binding>)
    ensures LastIndex(bs, role) == -1 ==> r == bs + [Binding(role, [member])]
    ensures LastIndex(bs, role) != -1 ==>
      var j := LastIndex(bs, role);
      |r| == |bs| && r[j] == Binding(role, bs[j].members + [member]) &&
      forall k :: 0 <= k < |bs| && k != j ==> r[k] == bs[k]
  {
    var j := LastIndex(bs, role);
    if j == -1 then bs + [Binding(role, [member])]
    else bs[j := Binding(bs[j].role, bs[j].members + [member])]
  }

  /** The members with the first occurrence of `m` taken out. */
  function WithoutFirst(ms: seq<string>, m: string): (r: seq<string>)
    ensures m !in ms ==> r == ms
    ensures m in ms ==> |r| == |ms| - 1
  {
    var j := IndexOf(ms, m);
    if j == -1 then ms else ms[..j] + ms[j + 1..]
  }

  /** Remove member: the first occurrence of `member` leaves the first binding
      for `role`; that binding stays even when it becomes empty. */
  function MemberRemoved(bs: seq<Binding>, role: string, member: string): (r: seq<Binding>)
    ensures |r| == |bs|
    ensures forall k :: 0 <= k < |bs| && k != FirstIndex(bs, role) ==> r[k] == bs[k]
    ensures FirstIndex(bs, role) != -1 ==>
      r[FirstIndex(bs, role)] == Binding(role, WithoutFirst(bs[FirstIndex(bs, role)].members, member))
  {
    var i := FirstIndex(bs, role);
    if i == -1 then bs else bs[i := Binding(bs[i].role, WithoutFirst(bs[i].members, member))]
  }

  /** The modify closures handed to the read-modify-write cycle. */
  datatype Edit =
      /** The binding resources' Update: search by `key` (the record id), write `binding`. */
    | Upsert(key: string, binding: Binding)
      /** The binding resources' Delete. */
    | Unbind(role: string)
      /** The member resources' Create. */
    | AddMember(role: string, member: string)
      /** The member resources' Delete. */
    | RemoveMember(role: string, member: string)
      /** The policy resources' Update. */
    | ReplaceAll(bindings: seq<Binding>)

  /** The policy an edit produces. */
  function Edited(bs: seq<Binding>, e: Edit): seq<Binding> {
    match e
    case Upsert(key, b) => Upserted(bs, key, b)
    case Unbind(role) => Removed(bs, role)
    case AddMember(role, member) => MemberAdded(bs, role, member)
    case RemoveMember(role, member) => MemberRemoved(bs, role, member)
    case ReplaceAll(desired) => desired
  }

  /** A copy of `ms` built one append at a time, as the resources build the
      members list of a binding from the configuration. */
  method CopyMembers(ms: seq<string>) returns (out: seq<string>)
    ensures out == ms
  {
    out := [];
    var i := 0;
    while i < |ms|
      invariant 0 <= i <= |ms|
      invariant out == ms[..i]
    {
      out := out + [ms[i]];
      i := i + 1;
    }
    assert ms[..|ms|] == ms;
  }

  /** The new binding list of the policy resources' Update: every desired
      binding in order, each with its role and a copy of its members. */
  method CopyBindings(desired: seq<Binding>) returns (out: seq<Binding>)
    ensures out == desired
  {
    out := [];
    var i := 0;
    while i < |desired|
      invariant 0 <= i <= |desired|
      invariant out == desired[..i]
    {
      var members := CopyMembers(desired[i].members);
      out := out + [Binding(desired[i].role, members)];
      i := i + 1;
    }
    assert desired[..|desired|] == desired;
  }

  /** Index of the first occurrence of `m`, by a search loop that breaks at the first hit. */
  method FindMember(ms: seq<string>, m: string) returns (j: int)
    ensures j == IndexOf(ms, m)
    ensures j == -1 <==> m !in ms
  {
    j := -1;
    var k := 0;
    while k < |ms|
      invariant 0 <= k <= |ms|
      invariant forall n :: 0 <= n < k ==> ms[n] != m
    {
      if ms[k] == m {
        j := k;
        break;
      }
      k := k + 1;
    }
    IndexOfUnique(ms, m, j);
  }

  /** A policy fetched from the API, edited in place by the modify closures. */
  class Policy {
    var bindings: seq<Binding>

    constructor (bindings: seq<Binding>)
      ensures this.bindings == bindings
    {
      this.bindings := bindings;
    }

    /** The search loop of the binding resources: index of the first binding
        for `role` (the loop breaks at the first hit), -1 if none. */
    method FindFirst(role: string) returns (index: int)
      ensures index == FirstIndex(bindings, role)
      ensures index == -1 <==> MembersOf(bindings, role).None?
    {
      index := -1;
      var i := 0;
      while i < |bindings|
        invariant 0 <= i <= |bindings|
        invariant forall k :: 0 <= k < i ==> bindings[k].role != role
      {
        if bindings[i].role == role {
          index := i;
          break;
        }
        i := i + 1;
      }
      FirstIndexUnique(bindings, role, index);
    }

    /** The member resources' Read loop: look at the first binding for `role`
        only, and report where `member` is in it (-1 when it is not). */
    method FindMemberOf(role: string, member: string) returns (memberIndex: int)
      ensures memberIndex != -1 <==> HasMember(bindings, role, member)
      ensures memberIndex != -1 ==>
        var i := FirstIndex(bindings, role);
        i != -1 && memberIndex == IndexOf(bindings[i].members, member)
    {
      memberIndex := -1;
      var i := FindFirst(role);
      if i != -1 {
        memberIndex := FindMember(bindings[i].members, member);
      }
    }

    /** The binding resources' Update closure. */
    method Upsert(key: string, b: Binding)
      modifies this
      ensures bindings == Upserted(old(bindings), key, b)
    {
      var index := FindFirst(key);
      if index == -1 {
        bindings := bindings + [b];
      } else {
        bindings := bindings[index := b];
      }
    }

    /** The binding resources' Delete closure: splice out the first binding for `role`. */
    method Unbind(role: string)
      modifies this
      ensures bindings == Removed(old(bindings), role)
    {
      var i := FindFirst(role);
      if i != -1 {
        bindings := bindings[..i] + bindings[i + 1..];
      }
    }

    /** The member resources' Create closure: the search loop has no break, so
        it ends on the last binding for `role`, whose members get `member`
        appended; with none, a new binding (role, [member]) is appended. */
    method AddMember(role: string, member: string)
      modifies this
      ensures bindings == MemberAdded(old(bindings), role, member)
    {
      var index := -1;
      var binding := Binding(role, []);
      var i := 0;
      while i < |bindings|
        invariant 0 <= i <= |bindings|
        invariant index == LastIndex(bindings[..i], role)
        invariant index == -1 ==> binding == Binding(role, [])
        invariant index != -1 ==> binding == bindings[index]
      {
        assert bindings[..i + 1][..i] == bindings[..i];
        if bindings[i].role == role {
          index := i;
          binding := bindings[i];
        }
        i := i + 1;
      }
      assert bindings[..|bindings|] == bindings;
      assert index == -1 ==> binding.members + [member] == [member];
      binding := Binding(binding.role, binding.members + [member]);
      if index == -1 {
        bindings := bindings + [binding];
      } else {
        bindings := bindings[index := binding];
      }
    }

    /** The member resources' Delete closure: in the first binding for `role`,
        splice out the first occurrence of `member`, and write the binding back. */
    method RemoveMember(role: string, member: string)
      modifies this
      ensures bindings == MemberRemoved(old(bindings), role, member)
    {
      var i := FindFirst(role);
      if i != -1 {
        var binding := bindings[i];
        var j := FindMember(binding.members, member);
        if j != -1 {
          binding := Binding(binding.role, binding.members[..j] + binding.members[j + 1..]);
        }
        bindings := bindings[i := binding];
      }
    }

    /** The policy resources' Update closure: the bindings become the desired
        list, built afresh; the previous bindings are discarded. */
    method ReplaceAll(desired: seq<Binding>)
      modifies this
      ensures bindings == desired
    {
      var newBindings := CopyBindings(desired);
      bindings := newBindings;
    }

    /** Runs the modify closure `e` on this policy. */
    method Apply(e: Edit)
      modifies this
      ensures bindings == Edited(old(bindings), e)
    {
      match e
      case Upsert(key, b) => Upsert(key, b);
      case Unbind(role) => Unbind(role);
      case AddMember(role, member) => AddMember(role, member);
      case RemoveMember(role, member) => RemoveMember(role, member);
      case ReplaceAll(desired) => ReplaceAll(desired);
    }
  }

  /** Which policy document a client addresses: the system policy or a project's. */
  datatype Scope = System | Project(name: string)

  /** The policy API: one document per scope. A scope never written reads as
      the empty policy. Get and Set are told whether they fail. */
  class PolicyStore {
    var documents: map<Scope, seq<Binding>>

    constructor (documents: map<Scope, seq<Binding>>)
      ensures this.documents == documents
    {
      this.documents := documents;
    }

    function Document(scope: Scope): seq<Binding>
      reads this
    {
      if scope in documents then documents[scope] else []
    }

    /** policyClient.Get(): a fresh copy of the scope's policy, or the failure. */
    method Get(scope: Scope, failure: Option<Error>) returns (r: Outcome<Policy>)
      ensures failure.Some? ==> r == Err(failure.value)
      ensures failure.None? ==> r.Ok? && fresh(r.value) && r.value.bindings == Document(scope)
    {
      if failure.Some? {
        return Err(failure.value);
      }
      var p := new Policy(Document(scope));
      return Ok(p);
    }

    /** policyClient.Set(policy): stores the bindings, or fails and stores nothing. */
    method Set(scope: Scope, p: Policy, failure: Option<Error>) returns (err: Option<Error>)
      modifies this
      ensures err == failure
      ensures failure.None? ==> documents == old(documents)[scope := p.bindings]
      ensures failure.Some? ==> documents == old(documents)
    {
      err := failure;
      if failure.None? {
        documents := documents[scope := p.bindings];
      }
    }
  }

  /** iamReadModifyWrite: Get the policy, apply the modify closure once to
      the fetched policy, Set the result. A Get error is returned before
      modify or Set run; a Set error is returned unchanged; on success the
      stored policy is the edited one and the result is nil. */
  method ReadModifyWrite(store: PolicyStore, scope: Scope, edit: Edit,
                         getFailure: Option<Error>, setFailure: Option<Error>)
    returns (err: Option<Error>)
    modifies store
    ensures getFailure.Some? ==> err == getFailure && store.documents == old(store.documents)
    ensures getFailure.None? ==> err == setFailure
    ensures getFailure.None? && setFailure.Some? ==> store.documents == old(store.documents)
    ensures getFailure.None? && setFailure.None? ==>
      store.documents == old(store.documents)[scope := Edited(old(store.Document(scope)), edit)]
  {
    var got := store.Get(scope, getFailure);
    if got.Err? {
      return Some(got.error);
    }
    var policy := got.value;
    policy.Apply(edit);
    err := store.Set(scope, policy, setFailure);
  }

  /** The binding resources' Read: Get the policy and take the members of
      the first binding for `role`; None when no binding has the role. */
  method ReadBinding(store: PolicyStore, scope: Scope, role: string, failure: Option<Error>)
    returns (r: Outcome<Option<seq<string>>>)
    ensures failure.Some? ==> r == Err(failure.value)
    ensures failure.None? ==> r == Ok(MembersOf(store.Document(scope), role))
  {
    var got := store.Get(scope, failure);
    if got.Err? {
      return Err(got.error);
    }
    var policy := got.value;
    var index := policy.FindFirst(role);
    if index == -1 {
      return Ok(None);
    }
    return Ok(Some(policy.bindings[index].members));
  }

  /** The member resources' Read: Get the policy and report whether
      `member` is among the members of the first binding for `role`. */
  method ReadMember(store: PolicyStore, scope: Scope, role: string, member: string, failure: Option<Error>)
    returns (r: Outcome<bool>)
    ensures failure.Some? ==> r == Err(failure.value)
    ensures failure.None? ==> r == Ok(HasMember(store.Document(scope), role, member))
  {
    var got := store.Get(scope, failure);
    if got.Err? {
      return Err(got.error);
    }
    var memberIndex := got.value.FindMemberOf(role, member);
    return Ok(memberIndex != -1);
  }

  /** The policy resources' Read: Get the policy and copy out every binding,
      in order, with its role and members. */
  method ReadPolicy(store: PolicyStore, scope: Scope, failure: Option<Error>)
    returns (r: Outcome<seq<Binding>>)
    ensures failure.Some? ==> r == Err(failure.value)
    ensures failure.None? ==> r == Ok(store.Document(scope))
  {
    var got := store.Get(scope, failure);
    if got.Err? {
      return Err(got.error);
    }
    var bindings := CopyBindings(got.value.bindings);
    return Ok(bindings);
  }

  // ---- Properties of the edits ----

  /** FirstIndex is the only index with its two properties. */
  lemma FirstIndexUnique(bs: seq<Binding>, role: string, i: int)
    requires -1 <= i < |bs|
    requires 0 <= i ==> bs[i].role == role
    requires forall k :: 0 <= k < |bs| && (i == -1 || k < i) ==> bs[k].role != role
    ensures i == FirstIndex(bs, role)
  {
  }

  /** IndexOf is the only index with its two properties. */
  lemma IndexOfUnique(ms: seq<string>, m: string, j: int)
    requires -1 <= j < |ms|
    requires 0 <= j ==> ms[j] == m
    requires forall k :: 0 <= k < |ms| && (j == -1 || k < j) ==> ms[k] != m
    ensures j == IndexOf(ms, m)
  {
  }

  /** LastIndex is the only index with its two properties. */
  lemma LastIndexUnique(bs: seq<Binding>, role: string, i: int)
    requires -1 <= i < |bs|
    requires 0 <= i ==> bs[i].role == role
    requires forall k :: 0 <= k < |bs| && i < k ==> bs[k].role != role
    ensures i == LastIndex(bs, role)
  {
  }

  /** With one binding per role, the first and the last binding for a role
      are the same one, so add-member edits the binding that Read inspects. */
  lemma FirstIsLast(bs: seq<Binding>, role: string)
    requires UniqueRoles(bs)
    ensures FirstIndex(bs, role) == LastIndex(bs, role)
  {
  }

  /** Reading a role right after upserting it gives the members written. */
  lemma UpsertThenRead(bs: seq<Binding>, role: string, members: seq<string>)
    ensures MembersOf(Upserted(bs, role, Binding(role, members)), role) == Some(members)
  {
    var r := Upserted(bs, role, Binding(role, members));
    var i := FirstIndex(bs, role);
    if i == -1 {
      FirstIndexUnique(r, role, |bs|);
    } else {
      FirstIndexUnique(r, role, i);
    }
  }

  /** Upserting one role leaves what a Read of any other role reports unchanged. */
  lemma UpsertKeepsOtherRoles(bs: seq<Binding>, role: string, members: seq<string>, other: string)
    requires other != role
    ensures MembersOf(Upserted(bs, role, Binding(role, members)), other) == MembersOf(bs, other)
  {
    var r := Upserted(bs, role, Binding(role, members));
    var j := FirstIndex(bs, other);
    FirstIndexUnique(r, other, j);
  }

  /** Upserting the same binding twice is upserting it once. */
  lemma UpsertIdempotent(bs: seq<Binding>, role: string, members: seq<string>)
    ensures var b := Binding(role, members);
      Upserted(Upserted(bs, role, b), role, b) == Upserted(bs, role, b)
  {
    var b := Binding(role, members);
    var r := Upserted(bs, role, b);
    var i := FirstIndex(bs, role);
    if i == -1 {
      FirstIndexUnique(r, role, |bs|);
    } else {
      FirstIndexUnique(r, role, i);
    }
  }

  /** Removing a role that an upsert just added restores the policy. */
  lemma RemoveUndoesInsert(bs: seq<Binding>, role: string, members: seq<string>)
    requires FirstIndex(bs, role) == -1
    ensures Removed(Upserted(bs, role, Binding(role, members)), role) == bs
  {
    var r := Upserted(bs, role, Binding(role, members));
    FirstIndexUnique(r, role, |bs|);
    assert r[..|bs|] == bs;
  }

  /** With one binding per role, a removed role reads as absent. */
  lemma RemoveClearsRole(bs: seq<Binding>, role: string)
    requires UniqueRoles(bs)
    ensures MembersOf(Removed(bs, role), role).None?
  {
    var i := FirstIndex(bs, role);
    if i != -1 {
      var r := Removed(bs, role);
      FirstIndexUnique(r, role, -1);
    }
  }

  /** Without that condition a second binding for the role survives the
      removal and Read reports its members. */
  lemma RemoveLeavesDuplicateRole()
    ensures var bs := [Binding("r", ["a"]), Binding("r", ["b"])];
      MembersOf(Removed(bs, "r"), "r") == Some(["b"])
  {
    var bs := [Binding("r", ["a"]), Binding("r", ["b"])];
    assert FirstIndex(bs, "r") == 0;
    assert Removed(bs, "r") == [Binding("r", ["b"])];
  }

  /** Every edit except a wholesale replacement keeps one binding per role;
      an upsert does when the binding's role is its search key, as the
      binding resources ensure (the id is the role). */
  lemma EditKeepsUniqueRoles(bs: seq<Binding>, e: Edit)
    requires UniqueRoles(bs)
    requires e.Upsert? ==> e.binding.role == e.key
    requires e.ReplaceAll? ==> UniqueRoles(e.bindings)
    ensures UniqueRoles(Edited(bs, e))
  {
    match e
    case Upsert(key, b) =>
    case Unbind(role) =>
      var i := FirstIndex(bs, role);
      if i != -1 {
        var r := Removed(bs, role);
        forall j, k | 0 <= j < k < |r| ensures r[j].role != r[k].role {
          var j', k' := if j < i then j else j + 1, if k < i then k else k + 1;
          assert r[j] == bs[j'] && r[k] == bs[k'];
        }
      }
    case AddMember(role, member) =>
    case RemoveMember(role, member) =>
    case ReplaceAll(desired) =>
  }

  /** With one binding per role, a member read right after being added is there. */
  lemma AddThenHas(bs: seq<Binding>, role: string, member: string)
    requires UniqueRoles(bs)
    ensures HasMember(MemberAdded(bs, role, member), role, member)
  {
    var r := MemberAdded(bs, role, member);
    var j := LastIndex(bs, role);
    FirstIsLast(bs, role);
    if j == -1 {
      FirstIndexUnique(r, role, |bs|);
    } else {
      FirstIndexUnique(r, role, j);
    }
  }

  /** Without that condition add-member writes to the last binding for the
      role while Read looks at the first, so the new member is not seen. */
  lemma AddMissesDuplicateRole()
    ensures var bs := [Binding("r", []), Binding("r", [])];
      !HasMember(MemberAdded(bs, "r", "m"), "r", "m")
  {
    var bs := [Binding("r", []), Binding("r", [])];
    assert LastIndex(bs, "r") == 1;
    assert bs[1].members + ["m"] == ["m"];
    var r := MemberAdded(bs, "r", "m");
    assert r == [Binding("r", []), Binding("r", ["m"])];
    assert FirstIndex(r, "r") == 0;
  }

  /** Taking out the first occurrence removes exactly one copy of the member. */
  lemma WithoutFirstCount(ms: seq<string>, m: string)
    ensures multiset(WithoutFirst(ms, m)) == multiset(ms) - multiset{m}
  {
    var j := IndexOf(ms, m);
    if j == -1 {
      assert multiset(ms)[m] == 0;
    } else {
      var front, back := ms[..j], ms[j + 1..];
      assert ms == front + ([m] + back);
      assert WithoutFirst(ms, m) == front + back;
      calc {
        multiset(ms);
        multiset(front) + multiset([m] + back);
        multiset(front) + (multiset{m} + multiset(back));
      }
    }
  }

  /** Add-member appends without a duplicate check: with one binding per
      role, the member's count in the role goes up by exactly one, whether or
      not it was there. */
  lemma AddCountsOnce(bs: seq<Binding>, role: string, member: string)
    requires UniqueRoles(bs)
    requires FirstIndex(bs, role) != -1
    ensures var r := MemberAdded(bs, role, member);
      var i := FirstIndex(bs, role);
      FirstIndex(r, role) == i &&
      multiset(r[i].members)[member] == multiset(bs[i].members)[member] + 1
  {
    FirstIsLast(bs, role);
    var i := FirstIndex(bs, role);
    var r := MemberAdded(bs, role, member);
    FirstIndexUnique(r, role, i);
  }

  /** After remove-member the member still reads as present exactly when the
      first binding for the role held it at least twice. */
  lemma RemoveThenHas(bs: seq<Binding>, role: string, member: string)
    ensures HasMember(MemberRemoved(bs, role, member), role, member) <==>
      FirstIndex(bs, role) != -1 && multiset(bs[FirstIndex(bs, role)].members)[member] >= 2
  {
    var i := FirstIndex(bs, role);
    var r := MemberRemoved(bs, role, member);
    FirstIndexUnique(r, role, i);
    if i != -1 {
      WithoutFirstCount(bs[i].members, member);
      assert member in r[i].members <==> multiset(r[i].members)[member] > 0;
    }
  }

  /** Adding a member that is not there and then removing it restores the
      policy when the role had a binding; when it had none, the binding that
      add-member created stays behind, empty. */
  lemma AddThenRemove(bs: seq<Binding>, role: string, member: string)
    requires UniqueRoles(bs)
    requires !HasMember(bs, role, member)
    ensures FirstIndex(bs, role) != -1 ==> MemberRemoved(MemberAdded(bs, role, member), role, member) == bs
    ensures FirstIndex(bs, role) == -1 ==>
      MemberRemoved(MemberAdded(bs, role, member), role, member) == bs + [Binding(role, [])]
  {
    FirstIsLast(bs, role);
    if FirstIndex(bs, role) == -1 {
      AddThenRemoveNew(bs, role, member);
    } else {
      AddThenRemoveExisting(bs, role, member);
    }
  }

  /** AddThenRemove when the role has no binding: add-member appends
      (role, [member]) and remove-member empties it. */
  lemma AddThenRemoveNew(bs: seq<Binding>, role: string, member: string)
    requires FirstIndex(bs, role) == -1
    ensures LastIndex(bs, role) == -1
    ensures MemberRemoved(MemberAdded(bs, role, member), role, member) == bs + [Binding(role, [])]
  {
    var r := MemberAdded(bs, role, member);
    FirstIndexUnique(r, role, |bs|);
    AppendedThenRemoved([], member);
    assert [] + [member] == [member];
  }

  /** AddThenRemove when the role's only binding lacks the member: the
      member appended to it is the occurrence remove-member takes out. */
  lemma AddThenRemoveExisting(bs: seq<Binding>, role: string, member: string)
    requires FirstIndex(bs, role) != -1 && FirstIndex(bs, role) == LastIndex(bs, role)
    requires member !in bs[FirstIndex(bs, role)].members
    ensures MemberRemoved(MemberAdded(bs, role, member), role, member) == bs
  {
    var i := FirstIndex(bs, role);
    var r := MemberAdded(bs, role, member);
    FirstIndexUnique(r, role, i);
    var ms := bs[i].members;
    AppendedThenRemoved(ms, member);
    assert MemberRemoved(r, role, member) == r[i := Binding(role, ms)];
  }

  /** Taking out the first occurrence of a member that was appended to a
      list without it gives back the list. */
  lemma AppendedThenRemoved(ms: seq<string>, m: string)
    requires m !in ms
    ensures WithoutFirst(ms + [m], m) == ms
  {
    IndexOfUnique(ms + [m], m, |ms|);
    assert (ms + [m])[..|ms|] == ms;
  }
}
