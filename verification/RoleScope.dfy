/**
 * Branch-scoped roles: a role that may only be granted at a concrete branch, and the memberships that must
 * not grant it across the whole chain. One tenant; each step is one committed transaction.
 */
module RoleScope {
  import opened Common

  type Id = nat

  datatype Role = Role(name: string, branch: Option<Id>, branchScoped: bool, isSystem: bool)

  datatype Status = Active | Suspended | Terminated

  datatype Membership = Membership(person: Id, branch: Option<Id>, role: Id, status: Status)

  datatype Error = Invalid | NotFound | Conflict(chainWide: nat) | Duplicate | Refused

  datatype State = State(roles: map<Id, Role>, members: map<Id, Membership>)

  predicate RequiresBranch(r: Role) {
    r.branchScoped || r.branch.Some?
  }

  /** Chain-wide memberships of a role that still count as grants. */
  function ChainWide(s: State, role: Id): set<Id> {
    set m | m in s.members && s.members[m].role == role && s.members[m].branch.None? && !s.members[m].status.Terminated?
  }

  predicate SameGrant(m: Membership, person: Id, branch: Option<Id>, role: Id) {
    m.person == person && m.branch == branch && m.role == role
  }

  // ---------------------------------------------------------------- the transactions

  datatype Step =
    | CreateRole(id: Id, name: string, branch: Option<Id>, branchScoped: bool)
    | UpdateRole(id: Id, name: string, branchScoped: bool)
    | CreateMembership(id: Id, person: Id, branch: Option<Id>, role: Id)
    | Invite(id: Id, person: Id, branch: Option<Id>, role: Id)
    | UpdateStatus(id: Id, status: Status)

  /** New ids are generated by the database. */
  predicate Enabled(s: State, step: Step) {
    match step
    case CreateRole(id, _, _, _) => id !in s.roles
    case CreateMembership(id, _, _, _) => id !in s.members
    case Invite(id, _, _, _) => id !in s.members
    case _ => true
  }

  /** The membership-write guard: the role exists and does not need a branch the row lacks. */
  predicate GuardPasses(s: State, branch: Option<Id>, role: Id) {
    role in s.roles && (branch.Some? || !RequiresBranch(s.roles[role]))
  }

  function UpdateError(s: State, id: Id, name: string, branchScoped: bool): Option<Error> {
    if name == "" then Some(Invalid)
    else if id !in s.roles then Some(NotFound)
    else if s.roles[id].isSystem then Some(Invalid)
    else if RequiresBranch(s.roles[id].(branchScoped := branchScoped)) && !RequiresBranch(s.roles[id])
      && |ChainWide(s, id)| > 0 then
      Some(Conflict(|ChainWide(s, id)|))
    else None
  }

  ghost predicate Taken(s: State, person: Id, branch: Option<Id>, role: Id) {
    exists m :: m in s.members && SameGrant(s.members[m], person, branch, role)
  }

  /** The state after a step; a refused step changes nothing. */
  ghost function Do(s: State, step: Step): State
    requires Enabled(s, step)
  {
    match step
    case CreateRole(id, name, branch, branchScoped) =>
      if name == "" then s else s.(roles := s.roles[id := Role(name, branch, branchScoped || branch.Some?, false)])
    case UpdateRole(id, name, branchScoped) =>
      if UpdateError(s, id, name, branchScoped).Some? then s
      else
        var next := s.roles[id].(name := name, branchScoped := branchScoped);
        s.(roles := s.roles[id := next.(branchScoped := RequiresBranch(next))])
    case CreateMembership(id, person, branch, role) =>
      if !GuardPasses(s, branch, role) || Taken(s, person, branch, role) then s
      else s.(members := s.members[id := Membership(person, branch, role, Active)])
    case Invite(id, person, branch, role) =>
      if !GuardPasses(s, branch, role) || Taken(s, person, branch, role) then s
      else s.(members := s.members[id := Membership(person, branch, role, Active)])
    case UpdateStatus(id, status) =>
      if id !in s.members then s else s.(members := s.members[id := s.members[id].(status := status)])
  }

  ghost predicate IsRun(states: seq<State>, steps: seq<Step>) {
    && |states| == |steps| + 1
    && (forall m :: m !in states[0].members)
    && forall i :: 0 <= i < |steps| ==> Enabled(states[i], steps[i]) && states[i + 1] == Do(states[i], steps[i])
  }

  // ---------------------------------------------------------------- what the steps mean

  /**
   * A grant is made, by either service, exactly when the role exists, it is neither branch-scoped nor bound to a
   * branch unless the grant names one, and nobody's row is the same; it is then active.
   */
  lemma GrantedExactly(s: State, id: Id, person: Id, branch: Option<Id>, role: Id)
    requires id !in s.members
    ensures var made := role in s.roles
      && (branch != None || (!s.roles[role].branchScoped && s.roles[role].branch == None))
        && !(exists m :: m in s.members && s.members[m].person == person && s.members[m].branch == branch
                         && s.members[m].role == role);
      && Do(s, CreateMembership(id, person, branch, role))
         == (if made then s.(members := s.members[id := Membership(person, branch, role, Active)]) else s)
      && Do(s, Invite(id, person, branch, role)) == Do(s, CreateMembership(id, person, branch, role))
  {
    if Taken(s, person, branch, role) {
      var m :| m in s.members && SameGrant(s.members[m], person, branch, role);
      assert s.members[m].person == person && s.members[m].branch == branch && s.members[m].role == role;
    }
    if m :| (m in s.members && s.members[m].person == person && s.members[m].branch == branch
             && s.members[m].role == role)
    {
      assert SameGrant(s.members[m], person, branch, role);
    }
  }

  /**
   * A role is updated exactly when it has a name, exists, is not a system role and does not become branch-scoped
   * over a chain-wide membership that is not terminated; a role bound to a branch stays branch-scoped.
   */
  lemma UpdatedExactly(s: State, id: Id, name: string, branchScoped: bool)
    ensures var inUse := exists m :: m in s.members && s.members[m].role == id && s.members[m].branch == None
                                     && s.members[m].status != Terminated;
      Do(s, UpdateRole(id, name, branchScoped))
      == if name != "" && id in s.roles && !s.roles[id].isSystem
           && !(branchScoped && !s.roles[id].branchScoped && s.roles[id].branch == None && inUse)
         then s.(roles := s.roles[id := s.roles[id].(name := name,
                                                     branchScoped := branchScoped || s.roles[id].branch != None)])
         else s
  {
    if m :| (m in s.members && s.members[m].role == id && s.members[m].branch == None
             && s.members[m].status != Terminated)
    {
      assert m in ChainWide(s, id);
    }
    if m :| m in ChainWide(s, id) {
      assert s.members[m].role == id;
    }
    assert |ChainWide(s, id)| > 0 <==> ChainWide(s, id) != {};
  }

  /** A new role is branch-scoped if it is created so or bound to a branch. */
  lemma CreatedExactly(s: State, id: Id, name: string, branch: Option<Id>, branchScoped: bool)
    requires id !in s.roles
    ensures Do(s, CreateRole(id, name, branch, branchScoped))
         == if name == "" then s
            else s.(roles := s.roles[id := Role(name, branch, branchScoped || branch != None, false)])
  {
  }

  // ---------------------------------------------------------------- what is kept

  /** A chain-wide membership grants, or can be resumed to grant, a role that requires a branch. */
  predicate LeaksAt(s: State, m: Id) {
    && m in s.members && s.members[m].branch.None? && !s.members[m].status.Terminated?
    && s.members[m].role in s.roles && RequiresBranch(s.roles[s.members[m].role])
  }

  ghost predicate Leaks(s: State) {
    exists m :: LeaksAt(s, m)
  }

  /** A terminated chain-wide membership is brought back after its role became branch-scoped. */
  predicate Revives(s: State, step: Step) {
    && step.UpdateStatus? && step.id in s.members && !step.status.Terminated?
    && var m := s.members[step.id];
       m.status.Terminated? && m.branch.None? && m.role in s.roles && RequiresBranch(s.roles[m.role])
  }

  /** From a state without a leak, reviving is the one step that opens one. */
  lemma StepLeaksExactly(s: State, step: Step)
    requires Enabled(s, step) && !Leaks(s)
    requires forall m :: m in s.members ==> s.members[m].role in s.roles
    ensures Leaks(Do(s, step)) <==> Revives(s, step)
  {
    var t := Do(s, step);
    if Revives(s, step) {
      assert LeaksAt(t, step.id);
    } else {
      forall m ensures !LeaksAt(t, m) {
        assert !LeaksAt(s, m);
        if step.UpdateRole? {
          assert m in ChainWide(s, step.id) ==> ChainWide(s, step.id) != {};
        }
      }
    }
  }

  lemma {:induction false} RolesExist(states: seq<State>, steps: seq<Step>, i: nat)
    requires IsRun(states, steps) && i < |states|
    ensures forall m :: m in states[i].members ==> states[i].members[m].role in states[i].roles
  {
    if i > 0 {
      RolesExist(states, steps, i - 1);
      assert states[i] == Do(states[i - 1], steps[i - 1]);
    }
  }

  lemma {:induction false} NoLeakBefore(states: seq<State>, steps: seq<Step>, i: nat)
    requires IsRun(states, steps) && i < |states| && forall j :: 0 <= j < i ==> !Revives(states[j], steps[j])
    ensures !Leaks(states[i])
  {
    if i > 0 {
      NoLeakBefore(states, steps, i - 1);
      RolesExist(states, steps, i - 1);
      StepLeaksExactly(states[i - 1], steps[i - 1]);
    }
  }

  /**
   * In every run, a chain-wide membership that is not terminated comes to grant a role requiring a branch
   * exactly when some status change revives a terminated chain-wide membership of such a role.
   */
  lemma ScopeKeptExactly(states: seq<State>, steps: seq<Step>)
    requires IsRun(states, steps)
    ensures (exists i :: 0 <= i < |states| && Leaks(states[i])) <==>
      (exists i :: 0 <= i < |steps| && Revives(states[i], steps[i]))
  {
    if i :| 0 <= i < |states| && Leaks(states[i]) {
      if forall j :: 0 <= j < i ==> !Revives(states[j], steps[j]) {
        NoLeakBefore(states, steps, i);
      }
    }
    if i :| 0 <= i < |steps| && Revives(states[i], steps[i]) {
      assert LeaksAt(states[i + 1], steps[i].id);
      assert Leaks(states[i + 1]);
    }
  }

  /**
   * In columns: as long as no status change takes a membership out of termination, every membership without a
   * branch that is not terminated is of a role that is neither branch-scoped nor bound to a branch.
   */
  lemma NoLeakInColumns(states: seq<State>, steps: seq<Step>, i: nat, m: Id)
    requires IsRun(states, steps) && i < |states| && m in states[i].members
    requires forall j :: (0 <= j < i && steps[j].UpdateStatus? && steps[j].id in states[j].members
                          && states[j].members[steps[j].id].status == Terminated) ==> steps[j].status == Terminated
    requires states[i].members[m].branch == None && states[i].members[m].status != Terminated
    ensures states[i].members[m].role in states[i].roles
    ensures !states[i].roles[states[i].members[m].role].branchScoped
    ensures states[i].roles[states[i].members[m].role].branch == None
  {
    NoLeakBefore(states, steps, i);
    RolesExist(states, steps, i);
    assert !LeaksAt(states[i], m);
  }

  /** The run that leaks: grant chain-wide, terminate, flip the role, reactivate; no step is refused. */
  lemma RevivedGrantLeaks(name: string)
    requires name != ""
    ensures exists states: seq<State>, steps: seq<Step> :: IsRun(states, steps) && |steps| == 5 && LeaksAt(states[5], 1)
  {
    var steps := [CreateRole(7, name, None, false), CreateMembership(1, 2, None, 7), UpdateStatus(1, Terminated),
                  UpdateRole(7, name, true), UpdateStatus(1, Active)];
    var s0 := State(map[], map[]);
    var s1 := Do(s0, steps[0]);
    var s2 := Do(s1, steps[1]);
    var s3 := Do(s2, steps[2]);
    assert ChainWide(s3, 7) == {};
    var s4 := Do(s3, steps[3]);
    var s5 := Do(s4, steps[4]);
    assert IsRun([s0, s1, s2, s3, s4, s5], steps);
  }

  // ---------------------------------------------------------------- the services

  /** The role and membership services over their two tables. */
  class Services {
    var roles: map<Id, Role>
    var members: map<Id, Membership>

    ghost function Tables(): State
      reads this
    {
      State(roles, members)
    }

    /** Rewrites name and flag; the switch to branch-scoped is refused while live chain-wide grants exist. */
    method UpdateRole(id: Id, name: string, branchScoped: bool) returns (r: Result<Role, Error>)
      modifies this
      ensures Tables() == Do(old(Tables()), Step.UpdateRole(id, name, branchScoped))
      ensures r.Err? <==> UpdateError(old(Tables()), id, name, branchScoped).Some?
      ensures r.Err? ==> Some(r.error) == UpdateError(old(Tables()), id, name, branchScoped)
      ensures r.Ok? ==> id in roles && r.value == roles[id]
    {
      if name == "" {
        return Err(Invalid);
      }
      if id !in roles {
        return Err(NotFound);
      }
      var current := roles[id];
      if current.isSystem {
        return Err(Invalid);
      }
      var next := current.(name := name, branchScoped := branchScoped);
      if RequiresBranch(next) && !RequiresBranch(current) {
        var count := CountChainWideForRole(id);
        if count > 0 {
          return Err(Conflict(count));
        }
      }
      roles := roles[id := next.(branchScoped := RequiresBranch(next))];
      return Ok(roles[id]);
    }

    method CountChainWideForRole(role: Id) returns (count: nat)
      ensures count == |ChainWide(Tables(), role)|
    {
      var found := set m | m in members && members[m].role == role && members[m].branch.None?
        && !members[m].status.Terminated?;
      assert found == ChainWide(Tables(), role);
      count := |found|;
    }

    /** Grants a role; without a branch only when the role allows it. */
    method Create(id: Id, person: Id, branch: Option<Id>, role: Id) returns (r: Result<Membership, Error>)
      requires id !in members
      modifies this
      ensures Tables() == Do(old(Tables()), CreateMembership(id, person, branch, role))
      ensures r.Ok? <==> GuardPasses(old(Tables()), branch, role) && !Taken(old(Tables()), person, branch, role)
      ensures role !in old(roles) ==> r == Err(NotFound)
      ensures role in old(roles) && !GuardPasses(old(Tables()), branch, role) ==> r == Err(Invalid)
    {
      if role !in roles {
        return Err(NotFound);
      }
      if RequiresBranch(roles[role]) && branch.None? {
        return Err(Invalid);
      }
      if m :| m in members && SameGrant(members[m], person, branch, role) {
        return Err(Duplicate);
      }
      members := members[id := Membership(person, branch, role, Active)];
      return Ok(members[id]);
    }

    /** The invite's grant: an existing row is returned as it is, even a terminated one. */
    method FindOrCreate(id: Id, person: Id, branch: Option<Id>, role: Id) returns (r: Result<Membership, Error>)
      requires id !in members
      modifies this
      ensures Tables() == Do(old(Tables()), Invite(id, person, branch, role))
      ensures r.Ok? <==> GuardPasses(old(Tables()), branch, role)
      ensures r.Ok? ==> SameGrant(r.value, person, branch, role) && r.value in members.Values
      ensures r.Ok? && !Taken(old(Tables()), person, branch, role) ==> r.value.status.Active?
    {
      if role !in roles || (RequiresBranch(roles[role]) && branch.None?) {
        return Err(Refused);
      }
      if m :| m in members && SameGrant(members[m], person, branch, role) {
        return Ok(members[m]);
      }
      members := members[id := Membership(person, branch, role, Active)];
      assert id in members;
      return Ok(members[id]);
    }

    method SetStatus(id: Id, status: Status) returns (r: Result<Membership, Error>)
      modifies this
      ensures Tables() == Do(old(Tables()), UpdateStatus(id, status))
      ensures r.Ok? <==> id in old(members)
    {
      if id !in members {
        return Err(NotFound);
      }
      members := members[id := members[id].(status := status)];
      return Ok(members[id]);
    }
  }
}
