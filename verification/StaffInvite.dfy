/**
 * Staff invites: find or create the Keycloak account, then the persons row, then the membership.
 * Every Keycloak call and every database transaction is one atomic action; any number of invites
 * interleave with each other, with crashes, and with realm admins editing or deleting accounts.
 */
module StaffInvite {
  import opened Common

  type Sub = nat
  type PersonId = nat
  type MembershipId = nat
  type InviteId = nat

  /** A Keycloak account of the single realm. */
  datatype Account = Account(username: string, email: string)

  datatype Person = Person(sub: Sub, email: string, fullName: string)

  datatype Membership = Membership(person: PersonId, tenant: nat, branch: Option<nat>, role: nat)

  /** `email` and `fullName` are trimmed, `email` is in lower case. */
  datatype Request = Request(tenant: nat, fullName: string, email: string, branch: Option<nat>, role: nat)

  datatype Db = Db(accounts: map<Sub, Account>, persons: map<PersonId, Person>,
                   memberships: map<MembershipId, Membership>)

  datatype Error =
    | InvalidInput      // 422, before any write
    | NotFound          // the role does not exist in the tenant
    | OrphanedAccount   // 409: the person's Keycloak account is gone
    | EmailTaken        // 409: another person holds the e-mail
    | AccountVanished   // Keycloak reported a conflict, but no account can be found
    | Infrastructure    // a call failed, or the serving process died

  /** A Keycloak user as one call returned it. */
  datatype User = User(sub: Sub, email: string)

  datatype Invited = Invited(personId: PersonId, person: Person, membership: MembershipId, created: bool)

  /** Where one invite is between two atomic actions. */
  datatype Phase =
    | Finding
    | PersonLookup
    | AccountLookup(sub: Sub)
    | Creating
    | Refinding
    | PersonWrite(user: User, created: bool)
    | MembershipWrite(user: User, created: bool, personId: PersonId, person: Person)
    | Mailing(user: User, result: Invited)
    | Done(user: User, result: Invited, notified: bool)
    | Failed(error: Error)

  // ---------------------------------------------------------------- unique keys and lookups

  ghost predicate HasAccount(db: Db, email: string) {
    exists sub :: sub in db.accounts && db.accounts[sub].email == email
  }

  ghost predicate HasUsername(db: Db, name: string) {
    exists sub :: sub in db.accounts && db.accounts[sub].username == name
  }

  ghost predicate HasPerson(db: Db, email: string) {
    exists id :: id in db.persons && db.persons[id].email == email
  }

  ghost function FindAccount(db: Db, email: string): (r: Option<Sub>)
    ensures r.Some? <==> HasAccount(db, email)
    ensures r.Some? ==> r.value in db.accounts && db.accounts[r.value].email == email
  {
    if HasAccount(db, email) then
      var sub :| sub in db.accounts && db.accounts[sub].email == email;
      Some(sub)
    else None
  }

  ghost function PersonByEmail(db: Db, email: string): (r: Option<PersonId>)
    ensures r.Some? <==> HasPerson(db, email)
    ensures r.Some? ==> r.value in db.persons && db.persons[r.value].email == email
  {
    if HasPerson(db, email) then
      var id :| id in db.persons && db.persons[id].email == email;
      Some(id)
    else None
  }

  ghost function PersonBySub(db: Db, sub: Sub): (r: Option<PersonId>)
    ensures r.None? <==> forall id <- db.persons :: db.persons[id].sub != sub
    ensures r.Some? ==> r.value in db.persons && db.persons[r.value].sub == sub
  {
    if exists id :: id in db.persons && db.persons[id].sub == sub then
      var id :| id in db.persons && db.persons[id].sub == sub;
      Some(id)
    else None
  }

  ghost function FindMembership(db: Db, m: Membership): (r: Option<MembershipId>)
    ensures r.None? <==> forall id <- db.memberships :: db.memberships[id] != m
    ensures r.Some? ==> r.value in db.memberships && db.memberships[r.value] == m
  {
    if exists id :: id in db.memberships && db.memberships[id] == m then
      var id :| id in db.memberships && db.memberships[id] == m;
      Some(id)
    else None
  }

  /** What Keycloak and the unique indexes guarantee; any number of accounts may have no address. */
  ghost predicate UniqueKeys(db: Db) {
    && (forall a <- db.accounts, b <- db.accounts ::
          a != b && db.accounts[a].email != "" ==> db.accounts[a].email != db.accounts[b].email)
    && (forall p <- db.persons, q <- db.persons :: p != q ==> db.persons[p].sub != db.persons[q].sub)
    && (forall p <- db.persons, q <- db.persons :: p != q ==> db.persons[p].email != db.persons[q].email)
    && (forall m <- db.memberships, n <- db.memberships :: m != n ==> db.memberships[m] != db.memberships[n])
  }

  // ---------------------------------------------------------------- one atomic action

  /** Identifiers that the stores would hand out next, and whether the password mail is accepted. */
  datatype Fresh = Fresh(sub: Sub, person: PersonId, membership: MembershipId, mailOk: bool)

  ghost predicate IsFresh(db: Db, used: set<Sub>, f: Fresh) {
    f.sub !in db.accounts && f.sub !in used && f.person !in db.persons && f.membership !in db.memberships
  }

  predicate Final(p: Phase) {
    p.Done? || p.Failed?
  }

  ghost function CreateAccount(db: Db, req: Request, f: Fresh): (Db, Phase) {
    if HasAccount(db, req.email) || HasUsername(db, req.email) then (db, Refinding)
    else (db.(accounts := db.accounts[f.sub := Account(req.email, req.email)]),
          PersonWrite(User(f.sub, req.email), true))
  }

  /** INSERT .. ON CONFLICT (keycloak_sub) DO NOTHING, with the refetch. */
  ghost function WritePerson(db: Db, req: Request, p: Phase, f: Fresh): (Db, Phase)
    requires p.PersonWrite?
  {
    var found := PersonBySub(db, p.user.sub);
    if found.Some? then (db, MembershipWrite(p.user, p.created, found.value, db.persons[found.value]))
    else if HasPerson(db, req.email) then (db, Failed(EmailTaken))
    else
      var person := Person(p.user.sub, req.email, req.fullName);
      (db.(persons := db.persons[f.person := person]), MembershipWrite(p.user, p.created, f.person, person))
  }

  /** The membership insert and the e-mail sync share a transaction: if the sync conflicts, neither is kept. */
  ghost function WriteMembership(db: Db, req: Request, p: Phase, f: Fresh): (Db, Phase)
    requires p.MembershipWrite?
  {
    var m := Membership(p.personId, req.tenant, req.branch, req.role);
    var found := FindMembership(db, m);
    var id := if found.Some? then found.value else f.membership;
    var written := db.(memberships := db.memberships[id := m]);
    if p.user.email == "" || p.person.email == p.user.email then
      (written, Granted(p.user, Invited(p.personId, p.person, id, p.created)))
    else if exists q :: q in db.persons && q != p.personId && db.persons[q].email == p.user.email then
      (db, Failed(EmailTaken))
    else
      var synced := p.person.(email := p.user.email);
      (written.(persons := db.persons[p.personId := synced]),
       Granted(p.user, Invited(p.personId, synced, id, p.created)))
  }

  /** A lookup by e-mail: its hit is the account to continue with. */
  function FoundOr(found: Option<Sub>, email: string, otherwise: Phase): Phase {
    match found
    case Some(sub) => PersonWrite(User(sub, email), false)
    case None => otherwise
  }

  function Granted(user: User, result: Invited): Phase {
    if result.created then Mailing(user, result) else Done(user, result, false)
  }

  ghost function Act(db: Db, req: Request, p: Phase, f: Fresh): (Db, Phase)
    requires !Final(p)
  {
    match p
    case Finding =>
      (db, FoundOr(FindAccount(db, req.email), req.email, PersonLookup))
    case PersonLookup =>
      var found := PersonByEmail(db, req.email);
      (db, if found.Some? then AccountLookup(db.persons[found.value].sub) else Creating)
    case AccountLookup(sub) =>
      (db, if sub in db.accounts then PersonWrite(User(sub, db.accounts[sub].email), false)
        else Failed(OrphanedAccount))
    case Creating => CreateAccount(db, req, f)
    case Refinding =>
      (db, FoundOr(FindAccount(db, req.email), req.email, Failed(AccountVanished)))
    case PersonWrite(_, _) => WritePerson(db, req, p, f)
    case MembershipWrite(_, _, _, _) => WriteMembership(db, req, p, f)
    case Mailing(user, result) => (db, Done(user, result, f.mailOk))
  }

  // ---------------------------------------------------------------- validation

  /** The roles a tenant can grant, with whether a grant must name a branch, and its branches. */
  datatype Tenancy = Tenancy(roles: map<(nat, nat), bool>, branches: set<(nat, nat)>)

  const NIL: nat := 0

  /** Everything that is checked before the first write. */
  function Admit(t: Tenancy, req: Request): Phase {
    if req.fullName == "" || req.email == "" || '@' !in req.email || req.role == NIL then Failed(InvalidInput)
    else if (req.tenant, req.role) !in t.roles then Failed(NotFound)
    else if t.roles[(req.tenant, req.role)] && req.branch.None? then Failed(InvalidInput)
    else if req.branch.Some? && (req.tenant, req.branch.value) !in t.branches then Failed(InvalidInput)
    else Finding
  }

  // ---------------------------------------------------------------- interleaved invites

  datatype Call = Call(req: Request, phase: Phase)

  /**
   * The stores, the invites, every sub ever handed out, and two histories: which invite created an
   * account, and the password mails attempted.
   */
  datatype World = World(tenancy: Tenancy, db: Db, used: set<Sub>, calls: map<InviteId, Call>,
                         creator: map<Sub, InviteId>, mails: seq<(InviteId, Sub)>)

  datatype Step =
    | Begin(i: InviteId, req: Request)
    | Advance(i: InviteId, fresh': Fresh)
    | Interrupt(i: InviteId)
    // Outside Keycloak edits.
    | EditAccount(sub: Sub, account: Account)
    | DeleteAccount(sub: Sub)

  ghost predicate Enabled(w: World, step: Step) {
    match step
    case Begin(i, _) => i !in w.calls
    case Advance(i, f) => i in w.calls && !Final(w.calls[i].phase) && IsFresh(w.db, w.used, f)
    case Interrupt(i) => i in w.calls && !Final(w.calls[i].phase)
    case EditAccount(sub, account) =>
      sub in w.db.accounts
        && forall other <- w.db.accounts :: other != sub ==>
             account.email == "" || w.db.accounts[other].email != account.email
    case DeleteAccount(sub) => sub in w.db.accounts
  }

  ghost function Do(w: World, step: Step): World
    requires Enabled(w, step)
  {
    match step
    case Begin(i, req) => w.(calls := w.calls[i := Call(req, Admit(w.tenancy, req))])
    case Advance(i, f) =>
      var call := w.calls[i];
      var (db, phase) := Act(w.db, call.req, call.phase, f);
      var made := call.phase.Creating? && phase.PersonWrite?;
      World(w.tenancy, db,
            if made then w.used + {f.sub} else w.used,
            w.calls[i := call.(phase := phase)],
            if made then w.creator[f.sub := i] else w.creator,
            if call.phase.Mailing? then w.mails + [(i, call.phase.user.sub)] else w.mails)
    case Interrupt(i) => w.(calls := w.calls[i := w.calls[i].(phase := Failed(Infrastructure))])
    case EditAccount(sub, account) => w.(db := w.db.(accounts := w.db.accounts[sub := account]))
    case DeleteAccount(sub) => w.(db := w.db.(accounts := w.db.accounts - {sub}))
  }

  /**
   * What a realm admin can do at any time: give an account any address that no other one has, or none, or
   * delete it.
   */
  lemma OutsideEditsExactly(w: World, sub: Sub, account: Account)
    ensures Enabled(w, EditAccount(sub, account)) <==>
      sub in w.db.accounts
      && (account.email != "" ==>
        !exists other :: other in w.db.accounts && other != sub && w.db.accounts[other].email == account.email)
    ensures Enabled(w, DeleteAccount(sub)) <==> sub in w.db.accounts
  {
  }

  /** Before any invite of the run, every person's e-mail is the one its Keycloak account carries. */
  ghost predicate Initial(w: World) {
    && UniqueKeys(w.db) && InStep(w.db) && w.calls == map[] && w.creator == map[] && w.mails == []
      && w.db.accounts.Keys <= w.used
    && forall m <- w.db.memberships :: w.db.memberships[m].person in w.db.persons
  }

  ghost predicate InStep(db: Db) {
    && (forall p <- db.persons ::
      db.persons[p].sub in db.accounts && db.accounts[db.persons[p].sub].email == db.persons[p].email)
    && (forall sub <- db.accounts :: '@' in db.accounts[sub].username ==>
      db.accounts[sub].username == db.accounts[sub].email)
  }

  ghost predicate IsRun(states: seq<World>, steps: seq<Step>) {
    && |states| == |steps| + 1
    && Initial(states[0])
    && forall i :: 0 <= i < |steps| ==> Enabled(states[i], steps[i]) && states[i + 1] == Do(states[i], steps[i])
  }

  ghost predicate NoOutsideEdits(steps: seq<Step>) {
    forall step <- steps :: !step.EditAccount? && !step.DeleteAccount?
  }

  // ---------------------------------------------------------------- convergence without e-mail drift

  /** `user` is the account of the request's e-mail. */
  ghost predicate UserOk(db: Db, req: Request, user: User) {
    user.sub in db.accounts && db.accounts[user.sub].email == user.email == req.email
  }

  ghost predicate ResultOk(db: Db, req: Request, user: User, result: Invited) {
    && UserOk(db, req, user)
    && result.personId in db.persons && db.persons[result.personId] == result.person && result.person.sub == user.sub
    && result.membership in db.memberships
    && db.memberships[result.membership] == Membership(result.personId, req.tenant, req.branch, req.role)
  }

  ghost predicate PhaseOk(db: Db, req: Request, p: Phase) {
    match p
    case AccountLookup(sub) => UserOk(db, req, User(sub, req.email))
    case Refinding => HasAccount(db, req.email)
    case PersonWrite(user, _) => UserOk(db, req, user)
    case MembershipWrite(user, _, id, person) =>
      UserOk(db, req, user) && id in db.persons && db.persons[id] == person && person.sub == user.sub
    case Mailing(user, result) => ResultOk(db, req, user, result)
    case Done(user, result, _) => ResultOk(db, req, user, result)
    case Failed(e) => e.InvalidInput? || e.NotFound? || e.Infrastructure?
    case _ => true
  }

  /** The invite believes it created the account it works with. */
  predicate ClaimsCreation(p: Phase) {
    match p
    case PersonWrite(_, created) => created
    case MembershipWrite(_, created, _, _) => created
    case Mailing(_, _) => true
    case Done(_, result, _) => result.created
    case _ => false
  }

  ghost predicate CallOk(w: World, i: InviteId)
    requires i in w.calls
  {
    var call := w.calls[i];
    && PhaseOk(w.db, call.req, call.phase)
    && (Final(call.phase) || '@' in call.req.email)
    && (ClaimsCreation(call.phase) ==> call.phase.user.sub in w.creator && w.creator[call.phase.user.sub] == i)
    && (call.phase.Mailing? ==> call.phase.result.created)
  }

  /** A password mail went to the account its invite created, after both rows were committed. */
  ghost predicate MailOk(w: World, m: (InviteId, Sub)) {
    && m.0 in w.calls && w.calls[m.0].phase.Done? && w.calls[m.0].phase.user.sub == m.1
    && w.calls[m.0].phase.result.created
  }

  ghost predicate Consistent(w: World) {
    && UniqueKeys(w.db) && InStep(w.db)
    && w.db.accounts.Keys <= w.used
    && (forall m <- w.db.memberships :: w.db.memberships[m].person in w.db.persons)
    && (forall i <- w.calls :: CallOk(w, i))
    && (forall m <- w.mails :: MailOk(w, m))
    && Distinct(w.mails)
  }

  /** Without outside edits the stores only grow. */
  ghost predicate Grows(a: Db, b: Db) {
    && (forall sub <- a.accounts :: sub in b.accounts && b.accounts[sub] == a.accounts[sub])
    && (forall id <- a.persons :: id in b.persons && b.persons[id] == a.persons[id])
    && (forall id <- a.memberships :: id in b.memberships && b.memberships[id] == a.memberships[id])
  }

  lemma GrowthKeepsPhase(a: Db, b: Db, req: Request, p: Phase)
    requires Grows(a, b) && PhaseOk(a, req, p)
    ensures PhaseOk(b, req, p)
  {
    if p.Refinding? {
      var sub :| sub in a.accounts && a.accounts[sub].email == req.email;
      assert b.accounts[sub].email == req.email;
    }
  }

  ghost predicate StoresOk(db: Db) {
    UniqueKeys(db) && InStep(db) && forall m <- db.memberships :: db.memberships[m].person in db.persons
  }

  lemma CreateKeepsStores(db: Db, req: Request, f: Fresh)
    requires StoresOk(db) && f.sub !in db.accounts && '@' in req.email
    ensures var (db', p') := CreateAccount(db, req, f); StoresOk(db') && Grows(db, db') && PhaseOk(db', req, p')
  {
  }

  lemma WritePersonKeepsStores(db: Db, req: Request, p: Phase, f: Fresh)
    requires StoresOk(db) && f.person !in db.persons && p.PersonWrite? && UserOk(db, req, p.user) && '@' in req.email
    ensures var (db', p') := WritePerson(db, req, p, f);
      StoresOk(db') && Grows(db, db') && p'.MembershipWrite? && PhaseOk(db', req, p')
  {
    if PersonBySub(db, p.user.sub).None? {
      forall id <- db.persons ensures db.persons[id].email != req.email {
        assert db.persons[id].sub != p.user.sub;
      }
    }
  }

  lemma WriteMembershipKeepsKeys(db: Db, req: Request, p: Phase, f: Fresh)
    requires UniqueKeys(db) && f.membership !in db.memberships && p.MembershipWrite?
    requires p.personId in db.persons && db.persons[p.personId].sub == p.person.sub
    ensures UniqueKeys(WriteMembership(db, req, p, f).0)
  {
  }

  lemma WriteMembershipKeepsStores(db: Db, req: Request, p: Phase, f: Fresh)
    requires StoresOk(db) && f.membership !in db.memberships && p.MembershipWrite? && PhaseOk(db, req, p)
    ensures var (db', p') := WriteMembership(db, req, p, f);
      StoresOk(db') && Grows(db, db') && (p'.Mailing? || p'.Done?) && PhaseOk(db', req, p')
  {
    hide UniqueKeys;
    WriteMembershipKeepsKeys(db, req, p, f);
    assert p.person.email == p.user.email;
  }

  lemma ActKeepsStores(db: Db, req: Request, p: Phase, f: Fresh)
    requires StoresOk(db) && PhaseOk(db, req, p) && !Final(p) && '@' in req.email && IsFresh(db, db.accounts.Keys, f)
    ensures var (db', p') := Act(db, req, p, f); StoresOk(db') && Grows(db, db') && PhaseOk(db', req, p')
  {
    match p
    case Creating => CreateKeepsStores(db, req, f);
    case PersonWrite(_, _) => WritePersonKeepsStores(db, req, p, f);
    case MembershipWrite(_, _, _, _) => WriteMembershipKeepsStores(db, req, p, f);
    case _ =>
  }

  /** A claim to have created the account is new only when the account is. */
  lemma ClaimsComeFromCreation(db: Db, req: Request, p: Phase, f: Fresh)
    requires !Final(p)
    ensures var p' := Act(db, req, p, f).1;
      && (ClaimsCreation(p') ==>
        if p.Creating? then p'.PersonWrite? && p'.user.sub == f.sub else ClaimsCreation(p) && p'.user == p.user)
      && (p'.Mailing? ==> p'.result.created)
  {
  }

  lemma AdvanceKeepsOwnCall(w: World, i: InviteId, f: Fresh)
    requires Consistent(w) && Enabled(w, Advance(i, f))
    ensures CallOk(Do(w, Advance(i, f)), i)
    ensures StoresOk(Do(w, Advance(i, f)).db) && Grows(w.db, Do(w, Advance(i, f)).db)
  {
    var call := w.calls[i];
    assert CallOk(w, i);
    ActKeepsStores(w.db, call.req, call.phase, f);
    ClaimsComeFromCreation(w.db, call.req, call.phase, f);
    var p' := Act(w.db, call.req, call.phase, f).1;
    var w' := Do(w, Advance(i, f));
    assert w'.calls[i] == Call(call.req, p') && w'.db == Act(w.db, call.req, call.phase, f).0;
  }

  lemma AdvanceKeepsOtherCall(w: World, i: InviteId, f: Fresh, j: InviteId)
    requires Consistent(w) && Enabled(w, Advance(i, f)) && j in w.calls && j != i
    ensures CallOk(Do(w, Advance(i, f)), j)
  {
    var w' := Do(w, Advance(i, f));
    AdvanceKeepsOwnCall(w, i, f);
    assert CallOk(w, j);
    GrowthKeepsPhase(w.db, w'.db, w.calls[j].req, w.calls[j].phase);
    assert w'.calls[j] == w.calls[j];
    if ClaimsCreation(w.calls[j].phase) {
      assert w.calls[j].phase.user.sub in w.db.accounts;
    }
  }

  lemma AdvanceKeepsMails(w: World, i: InviteId, f: Fresh)
    requires Consistent(w) && Enabled(w, Advance(i, f))
    ensures Distinct(Do(w, Advance(i, f)).mails)
      && forall m <- Do(w, Advance(i, f)).mails :: MailOk(Do(w, Advance(i, f)), m)
  {
    var w' := Do(w, Advance(i, f));
    assert CallOk(w, i);
    forall m <- w.mails ensures m.0 != i && MailOk(w', m) {
      assert MailOk(w, m);
    }
    if w.calls[i].phase.Mailing? {
      assert MailOk(w', (i, w.calls[i].phase.user.sub));
    }
  }

  lemma AdvanceKeepsUsed(w: World, i: InviteId, f: Fresh)
    requires w.db.accounts.Keys <= w.used && Enabled(w, Advance(i, f))
    ensures Do(w, Advance(i, f)).db.accounts.Keys <= Do(w, Advance(i, f)).used
  {
  }

  /** Begin and Interrupt touch one call and no store. */
  lemma CallStepKeepsConsistent(w: World, step: Step)
    requires Consistent(w) && Enabled(w, step) && (step.Begin? || step.Interrupt?)
    ensures Consistent(Do(w, step))
  {
    var w' := Do(w, step);
    forall j <- w'.calls ensures CallOk(w', j) {
      assert j in w.calls ==> CallOk(w, j);
    }
    forall m <- w'.mails ensures MailOk(w', m) {
      assert MailOk(w, m);
    }
  }

  lemma StepKeepsConsistent(w: World, step: Step)
    requires Consistent(w) && Enabled(w, step) && !step.EditAccount? && !step.DeleteAccount?
    ensures Consistent(Do(w, step)) && Grows(w.db, Do(w, step).db)
  {
    if step.Advance? {
      AdvanceKeepsOwnCall(w, step.i, step.fresh');
      AdvanceKeepsMails(w, step.i, step.fresh');
      AdvanceKeepsUsed(w, step.i, step.fresh');
      forall j <- w.calls ensures CallOk(Do(w, step), j) {
        if j != step.i {
          AdvanceKeepsOtherCall(w, step.i, step.fresh', j);
        }
      }
    } else {
      CallStepKeepsConsistent(w, step);
    }
  }

  lemma {:induction false} RunKeepsConsistent(states: seq<World>, steps: seq<Step>, k: nat)
    requires IsRun(states, steps) && NoOutsideEdits(steps) && k < |states|
    ensures Consistent(states[k])
  {
    if k > 0 {
      RunKeepsConsistent(states, steps, k - 1);
      assert steps[k - 1] in steps;
      StepKeepsConsistent(states[k - 1], steps[k - 1]);
    }
  }

  /**
   * Any interleaving of invites, with crashes anywhere and no outside edit of Keycloak: successful
   * invites of one e-mail return one person, those that also agree on tenant, branch and role return
   * one membership, and at most one of them created the account.
   */
  lemma InvitesConverge(states: seq<World>, steps: seq<Step>, k: nat, i: InviteId, j: InviteId)
    requires IsRun(states, steps) && NoOutsideEdits(steps) && k < |states|
    requires i in states[k].calls && states[k].calls[i].phase.Done?
    requires j in states[k].calls && states[k].calls[j].phase.Done?
    requires states[k].calls[i].req.email == states[k].calls[j].req.email
    ensures var a, b := states[k].calls[i], states[k].calls[j];
      && a.phase.result.person == b.phase.result.person && a.phase.result.personId == b.phase.result.personId
      && ((a.req.tenant, a.req.branch, a.req.role) == (b.req.tenant, b.req.branch, b.req.role) ==>
            a.phase.result.membership == b.phase.result.membership)
      && (a.phase.result.created && b.phase.result.created ==> i == j)
  {
    RunKeepsConsistent(states, steps, k);
    assert CallOk(states[k], i) && CallOk(states[k], j);
  }

  /** An invite fails only for its input, an unknown role, or an outage: never with a conflict. */
  lemma OnlyHarmlessFailures(states: seq<World>, steps: seq<Step>, k: nat, i: InviteId)
    requires IsRun(states, steps) && NoOutsideEdits(steps) && k < |states|
    requires i in states[k].calls && states[k].calls[i].phase.Failed?
    ensures states[k].calls[i].phase.error in {InvalidInput, NotFound, Infrastructure}
  {
    RunKeepsConsistent(states, steps, k);
    assert CallOk(states[k], i);
  }

  /**
   * Password mails: one per account at most, attempted by the invite that created it, when its person
   * and membership rows are committed.
   */
  lemma MailsGoToCreatedAccounts(states: seq<World>, steps: seq<Step>, k: nat, a: nat, b: nat)
    requires IsRun(states, steps) && NoOutsideEdits(steps) && k < |states|
    requires a < |states[k].mails| && b < |states[k].mails|
    ensures var (i, sub) := states[k].mails[a];
      && sub in states[k].creator && states[k].creator[sub] == i
      && i in states[k].calls && states[k].calls[i].phase.Done?
      && ResultOk(states[k].db, states[k].calls[i].req, states[k].calls[i].phase.user, states[k].calls[i].phase.result)
    ensures states[k].mails[a].1 == states[k].mails[b].1 ==> a == b
  {
    RunKeepsConsistent(states, steps, k);
    var w := states[k];
    assert w.mails[a] in w.mails && w.mails[b] in w.mails;
    assert MailOk(w, w.mails[a]) && MailOk(w, w.mails[b]);
    assert CallOk(w, w.mails[a].0) && CallOk(w, w.mails[b].0);
  }

  // ---------------------------------------------------------------- what outside edits cannot break

  ghost predicate RowsCommitted(db: Db, req: Request, result: Invited) {
    && result.personId in db.persons && result.membership in db.memberships
    && db.memberships[result.membership] == Membership(result.personId, req.tenant, req.branch, req.role)
  }

  ghost predicate PhaseSound(db: Db, req: Request, p: Phase) {
    match p
    case MembershipWrite(_, _, id, person) => id in db.persons && db.persons[id].sub == person.sub
    case Mailing(_, result) => result.created && RowsCommitted(db, req, result)
    case Done(_, result, _) => RowsCommitted(db, req, result)
    case _ => true
  }

  /** Persons keep their account and memberships stay as they are. */
  ghost predicate RowsStay(a: Db, b: Db) {
    && (forall id <- a.persons :: id in b.persons && b.persons[id].sub == a.persons[id].sub)
    && (forall id <- a.memberships :: id in b.memberships && b.memberships[id] == a.memberships[id])
  }

  ghost predicate CallSound(w: World, i: InviteId)
    requires i in w.calls
  {
    var call := w.calls[i];
    && PhaseSound(w.db, call.req, call.phase)
    && (ClaimsCreation(call.phase) ==> call.phase.user.sub in w.creator && w.creator[call.phase.user.sub] == i)
  }

  ghost predicate Sound(w: World) {
    && UniqueKeys(w.db) && w.db.accounts.Keys <= w.used && w.creator.Keys <= w.used
    && (forall i <- w.calls :: CallSound(w, i))
    && (forall m <- w.mails :: MailOk(w, m))
    && Distinct(w.mails)
  }

  predicate BothCreated(p: Phase, q: Phase) {
    ClaimsCreation(p) && ClaimsCreation(q) && p.user.sub == q.user.sub
  }

  lemma ActKeepsSound(db: Db, req: Request, p: Phase, f: Fresh, used: set<Sub>)
    requires UniqueKeys(db) && PhaseSound(db, req, p) && !Final(p) && IsFresh(db, used, f)
    ensures var (db', p') := Act(db, req, p, f); UniqueKeys(db') && PhaseSound(db', req, p') && RowsStay(db, db')
  {
    if p.MembershipWrite? {
      GrantKeepsSound(db, req, p, f);
    }
  }

  lemma GrantKeepsSound(db: Db, req: Request, p: Phase, f: Fresh)
    requires UniqueKeys(db) && PhaseSound(db, req, p) && p.MembershipWrite? && f.membership !in db.memberships
    ensures var (db', p') := WriteMembership(db, req, p, f);
      UniqueKeys(db') && PhaseSound(db', req, p') && RowsStay(db, db')
  {
    hide UniqueKeys;
    WriteMembershipKeepsKeys(db, req, p, f);
  }

  lemma AdvanceKeepsOwnSound(w: World, i: InviteId, f: Fresh)
    requires Sound(w) && Enabled(w, Advance(i, f))
    ensures var w' := Do(w, Advance(i, f));
      CallSound(w', i) && UniqueKeys(w'.db) && RowsStay(w.db, w'.db) && w'.db.accounts.Keys <= w'.used
        && w'.creator.Keys <= w'.used
  {
    hide Act;
    hide UniqueKeys;
    AdvanceKeepsUsed(w, i, f);
    var call := w.calls[i];
    assert CallSound(w, i);
    ActKeepsSound(w.db, call.req, call.phase, f, w.used);
    ClaimsComeFromCreation(w.db, call.req, call.phase, f);
    var w' := Do(w, Advance(i, f));
    assert w'.calls[i] == Call(call.req, Act(w.db, call.req, call.phase, f).1)
      && w'.db == Act(w.db, call.req, call.phase, f).0;
  }

  lemma AdvanceKeepsOtherSound(w: World, i: InviteId, f: Fresh, j: InviteId)
    requires Sound(w) && Enabled(w, Advance(i, f)) && j in w.calls && j != i
    ensures CallSound(Do(w, Advance(i, f)), j)
  {
    AdvanceKeepsOwnSound(w, i, f);
    assert CallSound(w, j) && Do(w, Advance(i, f)).calls[j] == w.calls[j];
  }

  lemma AdvanceKeepsSoundMails(w: World, i: InviteId, f: Fresh)
    requires Sound(w) && Enabled(w, Advance(i, f))
    ensures Distinct(Do(w, Advance(i, f)).mails)
      && forall m <- Do(w, Advance(i, f)).mails :: MailOk(Do(w, Advance(i, f)), m)
  {
    var w' := Do(w, Advance(i, f));
    assert CallSound(w, i);
    forall m <- w.mails ensures m.0 != i && MailOk(w', m) {
      assert MailOk(w, m);
    }
    if w.calls[i].phase.Mailing? {
      assert MailOk(w', (i, w.calls[i].phase.user.sub));
    }
  }

  lemma StepKeepsSound(w: World, step: Step)
    requires Sound(w) && Enabled(w, step)
    ensures Sound(Do(w, step))
  {
    var w' := Do(w, step);
    if step.Advance? {
      AdvanceKeepsOwnSound(w, step.i, step.fresh');
      AdvanceKeepsSoundMails(w, step.i, step.fresh');
      forall j <- w.calls ensures CallSound(w', j) {
        if j != step.i {
          AdvanceKeepsOtherSound(w, step.i, step.fresh', j);
        }
      }
    } else {
      forall j <- w'.calls ensures CallSound(w', j) {
        assert j in w.calls ==> CallSound(w, j);
      }
      forall m <- w'.mails ensures MailOk(w', m) {
        assert MailOk(w, m);
      }
    }
  }

  lemma {:induction false} RunKeepsSound(states: seq<World>, steps: seq<Step>, k: nat)
    requires IsRun(states, steps) && k < |states|
    ensures Sound(states[k])
  {
    if k > 0 {
      RunKeepsSound(states, steps, k - 1);
      StepKeepsSound(states[k - 1], steps[k - 1]);
    }
  }

  /**
   * In every run, with realm admins editing and deleting accounts at any point: no two accounts or persons
   * share a key, a successful invite's person and membership are there, an account has one creator, and at
   * most one password mail is attempted for it, by that creator.
   */
  lemma EditsCannotBreak(states: seq<World>, steps: seq<Step>, k: nat)
    requires IsRun(states, steps) && k < |states|
    ensures UniqueKeys(states[k].db)
    ensures forall i <- states[k].calls :: states[k].calls[i].phase.Done? ==>
      var (db, req, result) := (states[k].db, states[k].calls[i].req, states[k].calls[i].phase.result);
      && result.personId in db.persons && result.membership in db.memberships
      && db.memberships[result.membership] == Membership(result.personId, req.tenant, req.branch, req.role)
    ensures forall i <- states[k].calls, j <- states[k].calls ::
              BothCreated(states[k].calls[i].phase, states[k].calls[j].phase) ==> i == j
    ensures forall m <- states[k].mails :: m.1 in states[k].creator && states[k].creator[m.1] == m.0
    ensures forall a, b :: 0 <= a < b < |states[k].mails| ==> states[k].mails[a].1 != states[k].mails[b].1
  {
    var w := states[k];
    RunKeepsSound(states, steps, k);
    forall i <- w.calls ensures CallSound(w, i) {
    }
    forall m <- w.mails ensures m.1 in w.creator && w.creator[m.1] == m.0 {
      assert MailOk(w, m) && CallSound(w, m.0);
    }
    forall a, b | 0 <= a < b < |w.mails| ensures w.mails[a].1 != w.mails[b].1 {
      assert w.mails[a] in w.mails && w.mails[b] in w.mails;
    }
  }

  // ---------------------------------------------------------------- what may be granted

  /** The role is one of the tenant's, it has a branch if it needs one, and a branch is one of the tenant's. */
  predicate Grantable(t: Tenancy, tenant: nat, branch: Option<nat>, role: nat) {
    && (tenant, role) in t.roles
    && (t.roles[(tenant, role)] ==> branch.Some?)
    && (branch.Some? ==> (tenant, branch.value) in t.branches)
  }

  ghost predicate OnlyGrantable(start: World, w: World) {
    && w.tenancy == start.tenancy
    && (forall i <- w.calls :: !w.calls[i].phase.Failed? ==>
          Grantable(w.tenancy, w.calls[i].req.tenant, w.calls[i].req.branch, w.calls[i].req.role))
    && (forall id <- w.db.memberships ::
          (id in start.db.memberships && start.db.memberships[id] == w.db.memberships[id])
          || Grantable(w.tenancy, w.db.memberships[id].tenant, w.db.memberships[id].branch, w.db.memberships[id].role))
  }

  lemma ActWritesMembership(db: Db, req: Request, p: Phase, f: Fresh, id: MembershipId)
    requires !Final(p) && id in Act(db, req, p, f).0.memberships
    ensures (id in db.memberships && db.memberships[id] == Act(db, req, p, f).0.memberships[id])
         || Act(db, req, p, f).0.memberships[id].(person := 0) == Membership(0, req.tenant, req.branch, req.role)
  {
  }

  lemma StepKeepsGrantable(start: World, w: World, step: Step)
    requires OnlyGrantable(start, w) && Enabled(w, step)
    ensures OnlyGrantable(start, Do(w, step))
  {
    if step.Advance? {
      hide Act;
      var call, w' := w.calls[step.i], Do(w, step);
      assert w'.db == Act(w.db, call.req, call.phase, step.fresh').0;
      forall id <- w'.db.memberships | !(id in w.db.memberships && w.db.memberships[id] == w'.db.memberships[id])
        ensures Grantable(w.tenancy, w'.db.memberships[id].tenant, w'.db.memberships[id].branch,
                          w'.db.memberships[id].role)
      {
        ActWritesMembership(w.db, call.req, call.phase, step.fresh', id);
      }
    }
  }

  /**
   * In every run, with crashes and outside edits: every membership that was not there before the run grants a
   * role of its tenant, names a branch if the role requires one, and names no branch but one of that tenant.
   */
  lemma {:induction false} OnlyGrantableMemberships(states: seq<World>, steps: seq<Step>, k: nat)
    requires IsRun(states, steps) && k < |states|
    ensures OnlyGrantable(states[0], states[k])
    ensures forall id <- states[k].db.memberships ::
      var m := states[k].db.memberships[id]; var t := states[0].tenancy;
      !(id in states[0].db.memberships && states[0].db.memberships[id] == m) ==>
        && (m.tenant, m.role) in t.roles
        && (t.roles[(m.tenant, m.role)] ==> m.branch != None)
        && (m.branch != None ==> (m.tenant, m.branch.value) in t.branches)
  {
    hide Do;
    if k > 0 {
      OnlyGrantableMemberships(states, steps, k - 1);
      StepKeepsGrantable(states[0], states[k - 1], steps[k - 1]);
    }
  }

  // ---------------------------------------------------------------- one invite on its own

  function Rank(p: Phase): nat {
    match p
    case Finding => 8
    case PersonLookup => 7
    case AccountLookup(_) => 6
    case Creating => 6
    case Refinding => 5
    case PersonWrite(_, _) => 4
    case MembershipWrite(_, _, _, _) => 3
    case Mailing(_, _) => 2
    case _ => 0
  }

  /** An invite run from phase `p` to its end while nothing else moves. */
  ghost function Alone(db: Db, req: Request, p: Phase, f: Fresh): (Db, Phase)
    decreases Rank(p)
  {
    if Final(p) then (db, p)
    else
      var (db', p') := Act(db, req, p, f);
      Alone(db', req, p', f)
  }

  /** From every consistent store, so after any crashes, an undisturbed retry succeeds. */
  lemma {:induction false} RetrySucceeds(db: Db, req: Request, p: Phase, f: Fresh)
    requires StoresOk(db) && PhaseOk(db, req, p) && !p.Failed? && '@' in req.email
    requires Unused(db, p, f)
    ensures var (db', p') := Alone(db, req, p, f);
      p'.Done? && StoresOk(db') && Grows(db, db') && ResultOk(db', req, p'.user, p'.result)
    decreases Rank(p)
  {
    if !Final(p) {
      hide Act;
      hide StoresOk;
      hide PhaseOk;
      hide Grows;
      hide Unused;
      hide ResultOk;
      var (db', p') := Act(db, req, p, f);
      ActAloneKeepsStores(db, req, p, f);
      RetrySucceeds(db', req, p', f);
      GrowsOn(db, db', Alone(db', req, p', f).0);
      assert Alone(db, req, p, f) == Alone(db', req, p', f);
    }
  }

  /** Past validation nothing is refused as invalid or unknown any more. */
  lemma {:induction false} NeverInvalidLater(db: Db, req: Request, p: Phase, f: Fresh)
    requires !(p.Failed? && (p.error.InvalidInput? || p.error.NotFound?))
    ensures var (_, p') := Alone(db, req, p, f); Final(p') && p' != Failed(InvalidInput) && p' != Failed(NotFound)
    decreases Rank(p)
  {
    if !Final(p) {
      var (db', p') := Act(db, req, p, f);
      ActNeverInvalid(db, req, p, f);
      NeverInvalidLater(db', req, p', f);
    }
  }

  lemma ActNeverInvalid(db: Db, req: Request, p: Phase, f: Fresh)
    requires !Final(p)
    ensures var (_, p') := Act(db, req, p, f);
      Rank(p') < Rank(p) && !(p'.Failed? && (p'.error.InvalidInput? || p'.error.NotFound?))
  {
  }

  /**
   * Validation, exactly: an undisturbed invite is refused before any write if and only if a field is missing or
   * malformed, the role is not one of the tenant's, a branch the role requires is missing, or the branch is not
   * one of the tenant's; only the unknown role is reported as not found.
   */
  lemma RefusedExactly(t: Tenancy, db: Db, req: Request, f: Fresh)
    ensures var (db', p) := Alone(db, req, Admit(t, req), f);
      var wellFormed := req.fullName != "" && req.email != "" && '@' in req.email && req.role != 0;
      var known := (req.tenant, req.role) in t.roles;
      && (p == Failed(NotFound) <==> wellFormed && !known)
      && (p == Failed(InvalidInput) <==>
            !wellFormed
            || (known && t.roles[(req.tenant, req.role)] && req.branch == None)
            || (known && req.branch != None && (req.tenant, req.branch.value) !in t.branches))
      && (p == Failed(NotFound) || p == Failed(InvalidInput) ==> db' == db)
  {
    if Admit(t, req).Finding? {
      NeverInvalidLater(db, req, Finding, f);
    }
  }

  lemma GrowsOn(a: Db, b: Db, c: Db)
    requires Grows(a, b) && Grows(b, c)
    ensures Grows(a, c)
  {
  }

  lemma ActAloneKeepsStores(db: Db, req: Request, p: Phase, f: Fresh)
    requires StoresOk(db) && PhaseOk(db, req, p) && !Final(p) && '@' in req.email
    requires Unused(db, p, f)
    ensures var (db', p') := Act(db, req, p, f);
      && StoresOk(db') && Grows(db, db') && PhaseOk(db', req, p')
      && !p'.Failed? && Unused(db', p', f) && Rank(p') < Rank(p)
  {
    hide UniqueKeys;
    match p
    case Creating => CreateKeepsStores(db, req, f);
    case PersonWrite(_, _) => WritePersonKeepsStores(db, req, p, f);
    case MembershipWrite(_, _, _, _) => WriteMembershipKeepsStores(db, req, p, f);
    case _ => LookupKeepsStores(db, req, p, f);
  }

  lemma LookupKeepsStores(db: Db, req: Request, p: Phase, f: Fresh)
    requires StoresOk(db) && PhaseOk(db, req, p)
    requires p.Finding? || p.PersonLookup? || p.AccountLookup? || p.Refinding? || p.Mailing?
    ensures var (db', p') := Act(db, req, p, f);
      db' == db && PhaseOk(db, req, p') && !p'.Failed? && Rank(p') < Rank(p)
  {
  }

  /** The identifiers the invite may still need are unused. */
  ghost predicate Unused(db: Db, p: Phase, f: Fresh) {
    && (Rank(p) >= 3 ==> f.membership !in db.memberships)
    && (Rank(p) >= 4 ==> f.person !in db.persons)
    && (Rank(p) >= 6 ==> f.sub !in db.accounts)
  }

  // ---------------------------------------------------------------- e-mail drift, one invite at a time

  /** New identifiers are new: no account, person, membership or person's sub carries them. */
  ghost predicate Clean(db: Db, f: Fresh) {
    && f.sub !in db.accounts && f.person !in db.persons && f.membership !in db.memberships
    && forall id <- db.persons :: db.persons[id].sub != f.sub
  }

  lemma CreationSucceeds(db: Db, req: Request, f: Fresh)
    requires Clean(db, f) && !HasAccount(db, req.email) && !HasPerson(db, req.email) && !HasUsername(db, req.email)
    ensures var (_, p) := Alone(db, req, Finding, f);
      p.Done? && p.result.created && p.result.personId == f.person && p.user.sub == f.sub
  {
    var (db1, p1) := Act(db, req, Creating, f);
    var (db2, p2) := Act(db1, req, p1, f);
    var (db3, p3) := Act(db2, req, p2, f);
    assert p2.MembershipWrite? && p2.personId == f.person && p2.created;
    assert p3.Mailing? && p3.result.personId == f.person;
    AloneUnfolds(db3, req, p3, f);
    AloneUnfolds(db2, req, p2, f);
    AloneUnfolds(db1, req, p1, f);
    AloneUnfolds(db, req, Creating, f);
    AloneUnfolds(db, req, PersonLookup, f);
    AloneUnfolds(db, req, Finding, f);
  }

  lemma AloneUnfolds(db: Db, req: Request, p: Phase, f: Fresh)
    requires !Final(p)
    ensures var (db', p') := Act(db, req, p, f);
      Alone(db, req, p, f) == if Final(p') then (db', p') else Alone(db', req, p', f)
  {
  }

  /** Nothing past the Keycloak lookup turns a found account into a created one, or into a Keycloak error. */
  lemma {:induction false} FoundStaysFound(db: Db, req: Request, p: Phase, f: Fresh)
    requires (p.PersonWrite? && !p.created) || (p.MembershipWrite? && !p.created)
    ensures var (_, p') := Alone(db, req, p, f); (p'.Done? && !p'.result.created) || p' == Failed(EmailTaken)
    decreases Rank(p)
  {
    var (db', p') := Act(db, req, p, f);
    AloneUnfolds(db, req, p, f);
    if p.PersonWrite? && !Final(p') {
      FoundStaysFound(db', req, p', f);
    }
  }

  /**
   * Exactly when an undisturbed invite creates an account, meets an orphaned person, or gets stuck,
   * whatever edits were made in Keycloak before.
   */
  lemma SerialOutcome(db: Db, req: Request, f: Fresh)
    requires Clean(db, f) && UniqueKeys(db)
    ensures var (_, p) := Alone(db, req, Finding, f); var e := req.email;
      && (p.Done? && p.result.created <==> !HasAccount(db, e) && !HasPerson(db, e) && !HasUsername(db, e))
      && (p == Failed(AccountVanished) <==> !HasAccount(db, e) && !HasPerson(db, e) && HasUsername(db, e))
      && (p == Failed(OrphanedAccount) <==>
            !HasAccount(db, e) && exists id ::
              id in db.persons && db.persons[id].email == e && db.persons[id].sub !in db.accounts)
  {
    var e := req.email;
    AloneUnfolds(db, req, Finding, f);
    if HasAccount(db, e) {
      FoundStaysFound(db, req, Act(db, req, Finding, f).1, f);
    } else {
      AloneUnfolds(db, req, PersonLookup, f);
      if HasPerson(db, e) {
        var sub := db.persons[PersonByEmail(db, e).value].sub;
        AloneUnfolds(db, req, AccountLookup(sub), f);
        if sub in db.accounts {
          FoundStaysFound(db, req, PersonWrite(User(sub, db.accounts[sub].email), false), f);
        }
      } else if HasUsername(db, e) {
        AloneUnfolds(db, req, Creating, f);
        AloneUnfolds(db, req, Refinding, f);
      } else {
        CreationSucceeds(db, req, f);
      }
    }
  }

  /** The person holds the invited address, but a realm admin has changed the account's address since. */
  ghost predicate Drifted(db: Db, email: string, id: PersonId) {
    && !HasAccount(db, email)
    && id in db.persons && db.persons[id].email == email
    && db.persons[id].sub in db.accounts && db.accounts[db.persons[id].sub].email != ""
  }

  /** A drifted person is reused and takes over the account's address, unless another person has it. */
  lemma StaleEmailReuses(db: Db, req: Request, f: Fresh, id: PersonId)
    requires Clean(db, f) && UniqueKeys(db) && Drifted(db, req.email, id)
    ensures var (db', p) := Alone(db, req, Finding, f);
      var current := db.accounts[db.persons[id].sub].email;
      if HasPerson(db, current) then p == Failed(EmailTaken) && db' == db
      else
        && p.Done? && p.result.personId == id && !p.result.created
          && p.result.person == db.persons[id].(email := current)
        && db'.persons == db.persons[id := p.result.person] && db'.accounts == db.accounts
  {
    var sub := db.persons[id].sub;
    var user := User(sub, db.accounts[sub].email);
    AloneUnfolds(db, req, Finding, f);
    AloneUnfolds(db, req, PersonLookup, f);
    assert PersonByEmail(db, req.email) == Some(id);
    AloneUnfolds(db, req, AccountLookup(sub), f);
    AloneUnfolds(db, req, PersonWrite(user, false), f);
    assert PersonBySub(db, sub) == Some(id);
    AloneUnfolds(db, req, MembershipWrite(user, false, id, db.persons[id]), f);
  }

  /**
   * Idempotence by e-mail ends once the drift is synced: a retry with the old address no longer reaches
   * the person. It starts a second identity, or gets stuck if the account kept the address as user name.
   */
  lemma RetryAfterSyncLosesPerson(db: Db, req: Request, f: Fresh, g: Fresh, id: PersonId)
    requires Clean(db, f) && UniqueKeys(db) && Drifted(db, req.email, id)
    requires !HasPerson(db, db.accounts[db.persons[id].sub].email)
    requires Clean(Alone(db, req, Finding, f).0, g)
    ensures var (db', p) := Alone(db, req, Finding, f);
      var (_, q) := Alone(db', req, Finding, g);
      && p.Done? && p.result.personId == id
      && (if HasUsername(db, req.email) then q == Failed(AccountVanished)
          else q.Done? && q.result.created && q.result.personId != id)
  {
    StaleEmailReuses(db, req, f, id);
    var (db', p) := Alone(db, req, Finding, f);
    forall other <- db'.persons ensures db'.persons[other].email != req.email {
    }
    forall sub <- db'.accounts ensures db'.accounts[sub].email != req.email {
    }
    if HasUsername(db, req.email) {
      assert HasUsername(db', req.email);
      AloneUnfolds(db', req, Finding, g);
      AloneUnfolds(db', req, PersonLookup, g);
      AloneUnfolds(db', req, Creating, g);
      AloneUnfolds(db', req, Refinding, g);
    } else {
      assert !HasUsername(db', req.email);
      CreationSucceeds(db', req, g);
    }
  }

  /** An account with the invited address, whose person carries that address too, leads to that person. */
  lemma ReachesByAccount(db: Db, req: Request, g: Fresh, sub: Sub, id: PersonId)
    requires sub in db.accounts && db.accounts[sub].email == req.email
    requires forall other <- db.accounts :: db.accounts[other].email == req.email ==> other == sub
    requires id in db.persons && db.persons[id].sub == sub && db.persons[id].email == req.email
    requires forall q <- db.persons :: db.persons[q].sub == sub ==> q == id
    ensures var (_, p) := Alone(db, req, Finding, g); p.Done? && p.result.personId == id
  {
    var user := User(sub, req.email);
    assert FindAccount(db, req.email) == Some(sub) && PersonBySub(db, sub) == Some(id);
    AloneUnfolds(db, req, Finding, g);
    AloneUnfolds(db, req, PersonWrite(user, false), g);
    AloneUnfolds(db, req, MembershipWrite(user, false, id, db.persons[id]), g);
  }

  /** Without such an account, a person with the invited address whose account carries none is reached through it. */
  lemma ReachesByPerson(db: Db, req: Request, g: Fresh, id: PersonId)
    requires !HasAccount(db, req.email) && id in db.persons && db.persons[id].email == req.email
    requires forall q <- db.persons :: db.persons[q].email == req.email || db.persons[q].sub == db.persons[id].sub ==>
      q == id
    requires db.persons[id].sub in db.accounts && db.accounts[db.persons[id].sub].email == ""
    ensures var (db', p) := Alone(db, req, Finding, g);
      p.Done? && p.result.personId == id && db'.persons == db.persons && db'.accounts == db.accounts
  {
    var sub := db.persons[id].sub;
    var user := User(sub, "");
    assert PersonByEmail(db, req.email) == Some(id) && PersonBySub(db, sub) == Some(id);
    AloneUnfolds(db, req, Finding, g);
    AloneUnfolds(db, req, PersonLookup, g);
    AloneUnfolds(db, req, AccountLookup(sub), g);
    AloneUnfolds(db, req, PersonWrite(user, false), g);
    AloneUnfolds(db, req, MembershipWrite(user, false, id, db.persons[id]), g);
  }

  /** `sub` is the only account with the address, and person `id` the only one of that account, with the address. */
  ghost predicate Settled(db: Db, email: string, sub: Sub, id: PersonId) {
    && sub in db.accounts && db.accounts[sub].email == email
    && (forall other <- db.accounts :: db.accounts[other].email == email ==> other == sub)
    && id in db.persons && db.persons[id].sub == sub && db.persons[id].email == email
    && (forall q <- db.persons :: db.persons[q].sub == sub ==> q == id)
  }

  /**
   * A successful invite that found or created the account of its address leaves that account and its person
   * settled.
   */
  lemma MembershipSettles(db: Db, req: Request, user: User, created: bool, id: PersonId, person: Person, f: Fresh)
    requires UniqueKeys(db) && id in db.persons && db.persons[id] == person && person.sub == user.sub && req.email != ""
    requires user.email == req.email && user.sub in db.accounts && db.accounts[user.sub].email == req.email
    requires Alone(db, req, MembershipWrite(user, created, id, person), f).1.Done?
    ensures var (db', p') := Alone(db, req, MembershipWrite(user, created, id, person), f);
      Settled(db', req.email, user.sub, p'.result.personId)
  {
    var p := MembershipWrite(user, created, id, person);
    var (db1, p1) := Act(db, req, p, f);
    AloneUnfolds(db, req, p, f);
    assert Settled(db1, req.email, user.sub, id) && p1.result.personId == id;
    if p1.Mailing? {
      AloneUnfolds(db1, req, p1, f);
    }
  }

  lemma PersonSettles(db: Db, req: Request, user: User, created: bool, f: Fresh)
    requires UniqueKeys(db) && f.person !in db.persons && req.email != ""
    requires user.email == req.email && user.sub in db.accounts && db.accounts[user.sub].email == req.email
    requires Alone(db, req, PersonWrite(user, created), f).1.Done?
    ensures var (db', p') := Alone(db, req, PersonWrite(user, created), f);
      Settled(db', req.email, user.sub, p'.result.personId)
  {
    var p := PersonWrite(user, created);
    var (db1, p1) := Act(db, req, p, f);
    AloneUnfolds(db, req, p, f);
    assert p1.MembershipWrite?;
    MembershipSettles(db1, req, user, created, p1.personId, p1.person, f);
  }

  /** Where no person has drifted, a second invite of an address reaches the person of the first. */
  lemma RetryReaches(db: Db, req: Request, f: Fresh, g: Fresh)
    requires Clean(db, f) && UniqueKeys(db) && Alone(db, req, Finding, f).1.Done? && req.email != ""
    requires forall id :: !Drifted(db, req.email, id)
    ensures var (db', p) := Alone(db, req, Finding, f);
      var (_, q) := Alone(db', req, Finding, g); q.Done? && q.result.personId == p.result.personId
  {
    var e := req.email;
    var (db', p) := Alone(db, req, Finding, f);
    AloneUnfolds(db, req, Finding, f);
    SerialOutcome(db, req, f);
    if HasAccount(db, e) {
      var sub := FindAccount(db, e).value;
      PersonSettles(db, req, User(sub, e), false, f);
      ReachesByAccount(db', req, g, sub, p.result.personId);
    } else if HasPerson(db, e) {
      var id := PersonByEmail(db, e).value;
      assert !Drifted(db, e, id);
      ReachesByPerson(db, req, f, id);
      ReachesByPerson(db', req, g, id);
    } else {
      AloneUnfolds(db, req, PersonLookup, f);
      AloneUnfolds(db, req, Creating, f);
      var (db1, p1) := Act(db, req, Creating, f);
      PersonSettles(db1, req, p1.user, true, f);
      ReachesByAccount(db', req, g, f.sub, p.result.personId);
    }
  }

  /**
   * Idempotence by e-mail, exactly: after a successful invite, whatever edits were made in Keycloak before
   * it, a second invite of the address returns the same person if and only if no person with that address
   * had drifted from its account when the first one started.
   */
  lemma RetryReachesExactly(db: Db, req: Request, f: Fresh, g: Fresh)
    requires Clean(db, f) && UniqueKeys(db) && Alone(db, req, Finding, f).1.Done? && req.email != ""
    requires Clean(Alone(db, req, Finding, f).0, g)
    ensures var (db', p) := Alone(db, req, Finding, f);
      var (_, q) := Alone(db', req, Finding, g);
      (q.Done? && q.result.personId == p.result.personId) <==> !(exists id :: Drifted(db, req.email, id))
  {
    if id :| Drifted(db, req.email, id) {
      StaleEmailReuses(db, req, f, id);
      RetryAfterSyncLosesPerson(db, req, f, g, id);
    } else {
      RetryReaches(db, req, f, g);
    }
  }

  // ---------------------------------------------------------------- runs that lose the person

  const TENANCY: Tenancy := Tenancy(map[(1, 1) := false], {})
  const ANN: Request := Request(1, "Ann", "a@x", None, 1)

  lemma Then(states: seq<World>, steps: seq<Step>, step: Step, w: World)
    returns (states': seq<World>, steps': seq<Step>)
    requires IsRun(states, steps) && Enabled(states[|steps|], step) && Do(states[|steps|], step) == w
    ensures IsRun(states', steps') && states' == states + [w] && steps' == steps + [step]
  {
    states', steps' := states + [w], steps + [step];
  }

  /** Ann is being invited, and the invite has come to this phase. */
  function Inviting(w: World, i: InviteId, p: Phase): World {
    w.(calls := w.calls[i := Call(ANN, p)])
  }

  /** The invite's next action, when it neither creates an account nor sends a mail. */
  lemma ThenAct(states: seq<World>, steps: seq<Step>, w: World, i: InviteId, p: Phase, f: Fresh, db': Db, p': Phase)
    returns (states': seq<World>, steps': seq<Step>)
    requires IsRun(states, steps) && states[|steps|] == Inviting(w, i, p)
    requires !Final(p) && IsFresh(w.db, w.used, f) && Act(w.db, ANN, p, f) == (db', p')
    requires !p.Mailing? && !(p.Creating? && p'.PersonWrite?)
    ensures IsRun(states', steps') && |steps'| == |steps| + 1 && steps <= steps'
    ensures states'[|steps'|] == Inviting(w.(db := db'), i, p')
  {
    hide Act;
    hide IsFresh;
    var next := Inviting(w.(db := db'), i, p');
    assert w.calls[i := Call(ANN, p)][i := Call(ANN, p')] == w.calls[i := Call(ANN, p')];
    assert Do(states[|steps|], Advance(i, f)) == next;
    states', steps' := Then(states, steps, Advance(i, f), next);
  }

  /** Ann's account and person, with these addresses, and her membership if she has one. */
  function AnnsDb(name: string, accountEmail: string, personEmail: string,
                  memberships: map<MembershipId, Membership>): Db {
    Db(map[1 := Account(name, accountEmail)], map[1 := Person(1, personEmail, "Ann")], memberships)
  }

  const ANNS: map<MembershipId, Membership> := map[1 := Membership(1, 1, None, 1)]

  const SYNCED: Phase := Done(User(1, "b@x"), Invited(1, Person(1, "b@x", "Ann"), 1, false), false)

  lemma AnnsWorldIsInitial(name: string)
    requires name in {"u", "a@x"}
    ensures IsRun([World(TENANCY, AnnsDb(name, "a@x", "a@x", map[]), {1}, map[], map[], [])], [])
    ensures Admit(TENANCY, ANN) == Finding
  {
    assert "a@x"[1] == '@';
    assert "u"[0] == 'u';
  }

  /** What the first invite's actions find and write. */
  lemma AnnIsSynced(name: string, f: Fresh)
    requires f.membership == 1
    ensures var db := AnnsDb(name, "b@x", "a@x", map[]); var user := User(1, "b@x"); var ann := Person(1, "a@x", "Ann");
      && Act(db, ANN, Finding, f) == (db, PersonLookup)
      && Act(db, ANN, PersonLookup, f) == (db, AccountLookup(1))
      && Act(db, ANN, AccountLookup(1), f) == (db, PersonWrite(user, false))
      && Act(db, ANN, PersonWrite(user, false), f) == (db, MembershipWrite(user, false, 1, ann))
      && Act(db, ANN, MembershipWrite(user, false, 1, ann), f) == (AnnsDb(name, "b@x", "b@x", ANNS), SYNCED)
  {
    var db := AnnsDb(name, "b@x", "a@x", map[]);
    assert db.persons[1].email == "a@x" && db.persons[1].sub == 1;
    assert "a@x"[0] != "b@x"[0];
    assert PersonByEmail(db, "a@x") == Some(1) && PersonBySub(db, 1) == Some(1);
    assert db.persons[1 := Person(1, "b@x", "Ann")] == map[1 := Person(1, "b@x", "Ann")];
    assert map[][1 := Membership(1, 1, None, 1)] == ANNS;
  }

  /** Ann's address is changed in Keycloak, then she is invited under the old one. */
  lemma EditedRun(name: string, w: World) returns (states: seq<World>, steps: seq<Step>)
    requires name in {"u", "a@x"} && w == World(TENANCY, AnnsDb(name, "b@x", "a@x", map[]), {1}, map[], map[], [])
    ensures IsRun(states, steps) && |steps| == 2 && steps[0] == EditAccount(1, Account(name, "b@x"))
    ensures states[2] == Inviting(w, 1, Finding)
  {
    hide Act;
    hide IsRun;
    var before := AnnsDb(name, "a@x", "a@x", map[]);
    AnnsWorldIsInitial(name);
    states, steps := [World(TENANCY, before, {1}, map[], map[], [])], [];
    assert before.accounts[1 := Account(name, "b@x")] == w.db.accounts;
    states, steps := Then(states, steps, EditAccount(1, Account(name, "b@x")), w);
    states, steps := Then(states, steps, Begin(1, ANN), Inviting(w, 1, Finding));
  }

  /**
   * A realm admin changes Ann's address, and an invite of the old one reuses her person and writes the new
   * address into it.
   */
  lemma SyncRun(name: string) returns (states: seq<World>, steps: seq<Step>)
    requires name in {"u", "a@x"}
    ensures IsRun(states, steps) && |steps| == 7 && steps[0] == EditAccount(1, Account(name, "b@x"))
    ensures states[7] == World(TENANCY, AnnsDb(name, "b@x", "b@x", ANNS), {1}, map[1 := Call(ANN, SYNCED)], map[], [])
  {
    hide Act;
    hide IsRun;
    var f, user, ann := Fresh(2, 2, 1, true), User(1, "b@x"), Person(1, "a@x", "Ann");
    var db, synced := AnnsDb(name, "b@x", "a@x", map[]), AnnsDb(name, "b@x", "b@x", ANNS);
    var w := World(TENANCY, db, {1}, map[], map[], []);
    AnnIsSynced(name, f);
    states, steps := EditedRun(name, w);
    states, steps := ThenAct(states, steps, w, 1, Finding, f, db, PersonLookup);
    states, steps := ThenAct(states, steps, w, 1, PersonLookup, f, db, AccountLookup(1));
    states, steps := ThenAct(states, steps, w, 1, AccountLookup(1), f, db, PersonWrite(user, false));
    states, steps := ThenAct(states, steps, w, 1, PersonWrite(user, false), f, db,
                             MembershipWrite(user, false, 1, ann));
    states, steps := ThenAct(states, steps, w, 1, MembershipWrite(user, false, 1, ann), f, synced, SYNCED);
  }

  /** The retry finds neither account nor person of the old address. */
  lemma AnnIsNotFound(name: string, f: Fresh)
    requires name in {"u", "a@x"}
    ensures var db := AnnsDb(name, "b@x", "b@x", ANNS);
      && Act(db, ANN, Finding, f) == (db, PersonLookup)
      && Act(db, ANN, PersonLookup, f) == (db, Creating)
      && (name == "a@x" ==> Act(db, ANN, Creating, f) == (db, Refinding))
      && Act(db, ANN, Refinding, f) == (db, Failed(AccountVanished))
      && (name == "u" && f.sub == 2 ==>
            Act(db, ANN, Creating, f)
              == (TwoAccounts(map[1 := Person(1, "b@x", "Ann")], ANNS), PersonWrite(User(2, "a@x"), true)))
  {
    var db := AnnsDb(name, "b@x", "b@x", ANNS);
    assert "a@x"[0] != "b@x"[0] && "a@x"[0] != "u"[0];
    assert db.accounts[1].username == name;
    assert name == "u" ==> db.accounts[2 := Account("a@x", "a@x")] == TwoAccounts(db.persons, ANNS).accounts;
  }

  /** A second account, of the old address. */
  function TwoAccounts(persons: map<PersonId, Person>, memberships: map<MembershipId, Membership>): Db {
    Db(map[1 := Account("u", "b@x"), 2 := Account("a@x", "a@x")], persons, memberships)
  }

  /** The retry starts after the sync, and finds nothing. */
  lemma RetryRun(name: string, w: World) returns (states: seq<World>, steps: seq<Step>)
    requires name in {"u", "a@x"}
    requires w == World(TENANCY, AnnsDb(name, "b@x", "b@x", ANNS), {1}, map[1 := Call(ANN, SYNCED)], map[], [])
    ensures IsRun(states, steps) && |steps| == 10 && steps[0] == EditAccount(1, Account(name, "b@x"))
    ensures states[10] == Inviting(w, 2, Creating)
  {
    hide Act;
    hide IsRun;
    var f := Fresh(2, 2, 2, true);
    AnnIsNotFound(name, f);
    AnnsWorldIsInitial(name);
    states, steps := SyncRun(name);
    states, steps := Then(states, steps, Begin(2, ANN), Inviting(w, 2, Finding));
    states, steps := ThenAct(states, steps, w, 2, Finding, f, w.db, PersonLookup);
    states, steps := ThenAct(states, steps, w, 2, PersonLookup, f, w.db, Creating);
  }

  /**
   * Where the account kept the old address as its user name, the retry is stuck: Keycloak reports a
   * conflict, and the search by e-mail finds nothing.
   */
  lemma StuckRun() returns (states: seq<World>, steps: seq<Step>)
    ensures IsRun(states, steps) && |steps| == 12 && steps[0] == EditAccount(1, Account("a@x", "b@x"))
    ensures var calls := states[12].calls;
      && 1 in calls && calls[1] == Call(ANN, SYNCED)
      && 2 in calls && calls[2] == Call(ANN, Failed(AccountVanished))
  {
    hide Act;
    hide IsRun;
    var f := Fresh(2, 2, 2, true);
    var w := World(TENANCY, AnnsDb("a@x", "b@x", "b@x", ANNS), {1}, map[1 := Call(ANN, SYNCED)], map[], []);
    AnnIsNotFound("a@x", f);
    states, steps := RetryRun("a@x", w);
    states, steps := ThenAct(states, steps, w, 2, Creating, f, w.db, Refinding);
    states, steps := ThenAct(states, steps, w, 2, Refinding, f, w.db, Failed(AccountVanished));
  }

  const TWO_PERSONS: map<PersonId, Person> := map[1 := Person(1, "b@x", "Ann"), 2 := Person(2, "a@x", "Ann")]

  const TWO_MEMBERSHIPS: map<MembershipId, Membership> :=
    map[1 := Membership(1, 1, None, 1), 2 := Membership(2, 1, None, 1)]

  const SECOND: Invited := Invited(2, Person(2, "a@x", "Ann"), 2, true)

  /** What the retry writes for its new account. */
  lemma AnnIsDoubled(g: Fresh, h: Fresh)
    requires g.person == 2 && h.membership == 2
    ensures var user := User(2, "a@x"); var ann := Person(2, "a@x", "Ann");
      && Act(TwoAccounts(map[1 := Person(1, "b@x", "Ann")], ANNS), ANN, PersonWrite(user, true), g)
         == (TwoAccounts(TWO_PERSONS, ANNS), MembershipWrite(user, true, 2, ann))
      && Act(TwoAccounts(TWO_PERSONS, ANNS), ANN, MembershipWrite(user, true, 2, ann), h)
         == (TwoAccounts(TWO_PERSONS, TWO_MEMBERSHIPS), Mailing(user, SECOND))
  {
    assert "a@x"[0] != "b@x"[0];
    assert map[1 := Person(1, "b@x", "Ann")][2 := Person(2, "a@x", "Ann")] == TWO_PERSONS;
    assert ANNS[2 := Membership(2, 1, None, 1)] == TWO_MEMBERSHIPS;
  }

  /** The retry creates an account. */
  lemma SecondAccountRun(w: World) returns (states: seq<World>, steps: seq<Step>)
    requires w == World(TENANCY, TwoAccounts(map[1 := Person(1, "b@x", "Ann")], ANNS), {1, 2},
                        map[1 := Call(ANN, SYNCED)],
                        map[2 := 2], [])
    ensures IsRun(states, steps) && |steps| == 11 && steps[0] == EditAccount(1, Account("u", "b@x"))
    ensures states[11] == Inviting(w, 2, PersonWrite(User(2, "a@x"), true))
  {
    hide Act;
    hide IsRun;
    var f := Fresh(2, 2, 2, true);
    var before := World(TENANCY, AnnsDb("u", "b@x", "b@x", ANNS), {1}, map[1 := Call(ANN, SYNCED)], map[], []);
    AnnIsNotFound("u", f);
    states, steps := RetryRun("u", before);
    var next := Inviting(w, 2, PersonWrite(User(2, "a@x"), true));
    assert before.used + {2} == w.used && before.creator[2 := 2] == w.creator;
    assert Inviting(before, 2, Creating).calls[2 := next.calls[2]] == next.calls;
    states, steps := Then(states, steps, Advance(2, f), next);
  }

  /**
   * One request, sent twice with an address change in between, ends in two persons: the first invite
   * returned person 1, the retry made person 2 with an account of its own.
   */
  lemma DoubledRun() returns (states: seq<World>, steps: seq<Step>)
    ensures IsRun(states, steps) && |steps| == 14 && steps[0] == EditAccount(1, Account("u", "b@x"))
    ensures var calls := states[14].calls;
      && 1 in calls && calls[1] == Call(ANN, SYNCED)
      && 2 in calls && calls[2] == Call(ANN, Done(User(2, "a@x"), SECOND, true))
  {
    hide Act;
    hide IsRun;
    var g, h, user, ann := Fresh(3, 2, 2, true), Fresh(3, 3, 2, true), User(2, "a@x"), Person(2, "a@x", "Ann");
    var w := World(TENANCY, TwoAccounts(map[1 := Person(1, "b@x", "Ann")], ANNS), {1, 2}, map[1 := Call(ANN, SYNCED)],
                   map[2 := 2], []);
    AnnIsDoubled(g, h);
    states, steps := SecondAccountRun(w);
    states, steps := ThenAct(states, steps, w, 2, PersonWrite(user, true), g,
                             TwoAccounts(TWO_PERSONS, ANNS), MembershipWrite(user, true, 2, ann));
    w := w.(db := TwoAccounts(TWO_PERSONS, ANNS));
    states, steps := ThenAct(states, steps, w, 2, MembershipWrite(user, true, 2, ann), h,
                             TwoAccounts(TWO_PERSONS, TWO_MEMBERSHIPS), Mailing(user, SECOND));
    w := w.(db := TwoAccounts(TWO_PERSONS, TWO_MEMBERSHIPS));
    MailIsSent(w.db, user, SECOND, Fresh(3, 3, 3, true));
    states, steps := ThenMail(states, steps, w, user);
  }

  lemma MailIsSent(db: Db, user: User, result: Invited, f: Fresh)
    ensures Act(db, ANN, Mailing(user, result), f) == (db, Done(user, result, f.mailOk))
  {
  }

  lemma ThenMail(states: seq<World>, steps: seq<Step>, w: World, user: User)
    returns (states': seq<World>, steps': seq<Step>)
    requires IsRun(states, steps) && states[|steps|] == Inviting(w, 2, Mailing(user, SECOND))
    requires IsFresh(w.db, w.used, Fresh(3, 3, 3, true))
    ensures IsRun(states', steps') && |steps'| == |steps| + 1 && steps <= steps'
    ensures states'[|steps'|] == Inviting(w, 2, Done(user, SECOND, true)).(mails := w.mails + [(2, user.sub)])
  {
    hide Act;
    MailIsSent(w.db, user, SECOND, Fresh(3, 3, 3, true));
    var next := Inviting(w, 2, Done(user, SECOND, true)).(mails := w.mails + [(2, user.sub)]);
    assert Inviting(w, 2, Mailing(user, SECOND)).calls[2 := Call(ANN, Done(user, SECOND, true))] == next.calls;
    states', steps' := Then(states, steps, Advance(2, Fresh(3, 3, 3, true)), next);
  }

  // ---------------------------------------------------------------- the service as a program

  class StaffInviteService {
    var accounts: map<Sub, Account>
    var persons: map<PersonId, Person>
    var memberships: map<MembershipId, Membership>
    const tenancy: Tenancy

    constructor (t: Tenancy)
      ensures View() == Db(map[], map[], map[]) && tenancy == t
    {
      accounts, persons, memberships, tenancy := map[], map[], map[], t;
    }

    ghost function View(): Db
      reads this
    {
      Db(accounts, persons, memberships)
    }

    method FindUserByEmail(email: string) returns (r: Option<Sub>)
      requires UniqueKeys(View()) && email != ""
      ensures r == FindAccount(View(), email)
    {
      if sub :| sub in accounts && accounts[sub].email == email {
        return Some(sub);
      }
      return None;
    }

    method GetByEmail(email: string) returns (r: Option<PersonId>)
      requires UniqueKeys(View())
      ensures r == PersonByEmail(View(), email)
    {
      if id :| id in persons && persons[id].email == email {
        return Some(id);
      }
      return None;
    }

    method CreateUser(email: string, sub: Sub) returns (created: bool)
      modifies this`accounts
      ensures created <==> !old(HasAccount(View(), email)) && !old(HasUsername(View(), email))
      ensures accounts == if created then old(accounts)[sub := Account(email, email)] else old(accounts)
    {
      if sub' :| sub' in accounts && (accounts[sub'].email == email || accounts[sub'].username == email) {
        return false;
      }
      accounts := accounts[sub := Account(email, email)];
      return true;
    }

    /** The find-then-create-then-recover sequence; its reply is the phase the database writes start from. */
    method FindOrCreateKeycloakUser(req: Request, f: Fresh) returns (p: Phase)
      requires UniqueKeys(View()) && Clean(View(), f) && req.email != ""
      modifies this`accounts
      ensures p.PersonWrite? || (p.Failed? && p.error in {OrphanedAccount, AccountVanished})
      ensures UniqueKeys(View())
      ensures Alone(old(View()), req, Finding, f) == if p.Failed? then (View(), p) else Alone(View(), req, p, f)
    {
      ghost var db := View();
      AloneUnfolds(db, req, Finding, f);
      var sub := FindUserByEmail(req.email);
      if sub.Some? {
        return PersonWrite(User(sub.value, req.email), false);
      }
      AloneUnfolds(db, req, PersonLookup, f);
      var stale := GetByEmail(req.email);
      if stale.Some? {
        var owner := persons[stale.value].sub;
        AloneUnfolds(db, req, AccountLookup(owner), f);
        return if owner in accounts then PersonWrite(User(owner, accounts[owner].email), false)
          else Failed(OrphanedAccount);
      }
      AloneUnfolds(db, req, Creating, f);
      var created := CreateUser(req.email, f.sub);
      if created {
        return PersonWrite(User(f.sub, req.email), true);
      }
      AloneUnfolds(db, req, Refinding, f);
      sub := FindUserByEmail(req.email);
      return FoundOr(sub, req.email, Failed(AccountVanished));
    }

    method FindOrCreatePerson(req: Request, p: Phase, f: Fresh) returns (p': Phase)
      requires UniqueKeys(View()) && p.PersonWrite? && f.person !in persons
      modifies this`persons
      ensures UniqueKeys(View())
      ensures (View(), p') == WritePerson(old(View()), req, p, f)
    {
      if id :| id in persons && persons[id].sub == p.user.sub {
        return MembershipWrite(p.user, p.created, id, persons[id]);
      }
      if id :| id in persons && persons[id].email == req.email {
        return Failed(EmailTaken);
      }
      var person := Person(p.user.sub, req.email, req.fullName);
      persons := persons[f.person := person];
      return MembershipWrite(p.user, p.created, f.person, person);
    }

    method FindOrCreateMembership(req: Request, p: Phase, f: Fresh) returns (p': Phase)
      requires UniqueKeys(View()) && p.MembershipWrite? && f.membership !in memberships
      modifies this`persons, this`memberships
      ensures (View(), p') == WriteMembership(old(View()), req, p, f)
    {
      ghost var db := View();
      var before := memberships;
      var m := Membership(p.personId, req.tenant, req.branch, req.role);
      var id := f.membership;
      if found :| found in memberships && memberships[found] == m {
        id := found;
      } else {
        memberships := memberships[id := m];
      }
      assert FindMembership(db, m) == if id in db.memberships && db.memberships[id] == m then Some(id) else None;
      assert memberships == db.memberships[id := m];
      var person := p.person;
      if p.user.email != "" && person.email != p.user.email {
        if other :| other in persons && other != p.personId && persons[other].email == p.user.email {
          // The transaction rolls back.
          memberships := before;
          return Failed(EmailTaken);
        }
        person := person.(email := p.user.email);
        persons := persons[p.personId := person];
      }
      return Granted(p.user, Invited(p.personId, person, id, p.created));
    }

    /** The two database transactions and the password mail. */
    method WriteRowsAndMail(req: Request, start: Phase, f: Fresh) returns (p: Phase)
      requires UniqueKeys(View()) && start.PersonWrite? && f.person !in persons && f.membership !in memberships
      modifies this`persons, this`memberships
      ensures (View(), p) == Alone(old(View()), req, start, f)
      ensures p.Done? || p == Failed(EmailTaken)
    {
      AloneUnfolds(View(), req, start, f);
      p := FindOrCreatePerson(req, start, f);
      if p.Failed? {
        return;
      }
      AloneUnfolds(View(), req, p, f);
      p := FindOrCreateMembership(req, p, f);
      if p.Mailing? {
        AloneUnfolds(View(), req, p, f);
        p := Done(p.user, p.result, f.mailOk);
      }
    }

    /** One invite from validation to the password mail. */
    method Invite(req: Request, f: Fresh) returns (p: Phase)
      requires UniqueKeys(View()) && Clean(View(), f)
      modifies this`accounts, this`persons, this`memberships
      ensures (View(), p) == Alone(old(View()), req, Admit(tenancy, req), f)
      ensures p == Failed(InvalidInput) || p == Failed(NotFound) ==> View() == old(View())
      ensures p == Failed(InvalidInput) || p == Failed(NotFound) <==>
        !(req.fullName != "" && req.email != "" && '@' in req.email && req.role != 0
          && (req.tenant, req.role) in tenancy.roles
          && (tenancy.roles[(req.tenant, req.role)] ==> req.branch != None)
          && (req.branch != None ==> (req.tenant, req.branch.value) in tenancy.branches))
    {
      RefusedExactly(tenancy, View(), req, f);
      p := Admit(tenancy, req);
      if p.Failed? {
        return;
      }
      p := FindOrCreateKeycloakUser(req, f);
      if p.PersonWrite? {
        p := WriteRowsAndMail(req, p, f);
      }
    }
  }
}
