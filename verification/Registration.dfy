/** Invitation registration (packages/auth): a transaction under the invitation's row
    lock, wrapped around the creation of an identity at an external provider, with a
    compensating deletion when the transaction fails.

    Any number of registrations, logins and invitation disablements interleave at every await.
    A call's id stands for the ids it draws: its subject at the provider, its user id and
    its workspace id. The provider and the database may fail at any step, a commit may
    succeed and lose its reply, and a call may die anywhere. */
module Registration {

  import opened Common

  datatype Invitation = Invitation(maxUses: nat, useCount: nat, expiresAt: Option<int>, disabledAt: Option<int>)

  datatype User = User(subject: nat, email: string)

  datatype Workspace = Workspace(owner: nat, watchlist: set<string>)

  const DEFAULT_WATCHLIST := {"AAPL", "AMZN", "META", "MSFT", "NVDA", "SPY", "TSLA"}

  /** The committed tables; `redemptions` maps a user to the invitation it redeemed, and
      `logins` are the users that a first login committed, by subject. */
  datatype Tables = Tables(
    invitations: map<nat, Invitation>,
    users: map<nat, User>,
    workspaces: map<nat, Workspace>,
    redemptions: map<nat, nat>,
    logins: map<nat, User>)

  datatype Outcome = Registered | Unavailable | Raised | Died

  /** The next await of a registration. */
  datatype Pc =
    | AtLock | AtEmailCheck | AtCreate | AtFlush | AtCommit | AtCompensate
    | Ended(outcome: Outcome)

  /** `invitation` is the row whose hash matches the code, if there is one. */
  datatype Call = Call(email: string, invitation: Option<nat>, pc: Pc)

  /** `locks` and `emails` say which transaction holds an invitation's row lock and an
      uncommitted entry of the unique email index; `identities` are the subjects at the
      provider, `unacknowledged` the calls whose commit lost its reply. */
  datatype System = System(
    admins: set<string>,
    tables: Tables,
    identities: set<nat>,
    calls: map<nat, Call>,
    locks: map<nat, nat>,
    emails: map<string, nat>,
    unacknowledged: set<nat>)

  datatype Event =
    | CreateInvitation(i: nat, maxUses: nat, expiresAt: Option<int>)
    | Disable(i: nat, now: int)
    | Login(c: nat)
    | Begin(c: nat, email: string, invitation: Option<nat>)
    | Lock(c: nat, now: int)
    | CheckEmail(c: nat)
    | CreateIdentity(c: nat)
    | CreateIdentityFails(c: nat, created: bool)
    | Flush(c: nat)
    | Fail(c: nat)
    | Commit(c: nat, acknowledged: bool)
    | Compensate(c: nat, deleted: bool)
    | Die(c: nat)

  function Alone(admins: set<string>, tables: Tables, identities: set<nat>): System {
    System(admins, tables, identities, map[], map[], map[], {})
  }

  const NO_TABLES := Tables(map[], map[], map[], map[], map[])

  predicate Available(i: Invitation, now: int) {
    i.disabledAt.None? && (i.expiresAt.None? || i.expiresAt.value > now) && i.useCount < i.maxUses
  }

  /** The unique email index holds the address. */
  predicate HasEmail(t: Tables, email: string) {
    (exists u :: u in t.users && t.users[u].email == email) || (exists u :: u in t.logins && t.logins[u].email == email)
  }

  predicate At(s: System, c: nat, pc: Pc) {
    c in s.calls && s.calls[c].pc == pc
  }

  /** Holds the row lock of its invitation. */
  predicate InTransaction(call: Call) {
    call.pc in {AtEmailCheck, AtCreate, AtFlush, AtCommit}
  }

  /** A locked row and a pending index entry make others wait. A login needs the identity;
      it inserts a user for a subject that has none, unless the address is taken. */
  predicate Enabled(s: System, e: Event) {
    match e
    case CreateInvitation(i, _, _) => i !in s.tables.invitations
    case Disable(i, _) => i in s.tables.invitations && i !in s.locks
    case Login(c) =>
      c in s.calls && c in s.identities && s.calls[c].email !in s.emails && !HasEmail(s.tables, s.calls[c].email)
    case Begin(c, _, _) => c !in s.calls
    case Lock(c, _) =>
      At(s, c, AtLock) && (s.calls[c].invitation.Some? ==> s.calls[c].invitation.value !in s.locks)
    case CheckEmail(c) => At(s, c, AtEmailCheck)
    case CreateIdentity(c) => At(s, c, AtCreate)
    case CreateIdentityFails(c, _) => At(s, c, AtCreate)
    case Flush(c) => At(s, c, AtFlush) && s.calls[c].email !in s.emails
    case Fail(c) => At(s, c, AtFlush) || At(s, c, AtCommit)
    case Commit(c, _) => At(s, c, AtCommit)
    case Compensate(c, _) => At(s, c, AtCompensate)
    case Die(c) => c in s.calls && !s.calls[c].pc.Ended?
  }

  function Goto(s: System, c: nat, pc: Pc): System
    requires c in s.calls
  {
    s.(calls := s.calls[c := s.calls[c].(pc := pc)])
  }

  /** The end of a transaction frees what it held. */
  function Release(s: System, c: nat): System {
    s.(locks := map i | i in s.locks && s.locks[i] != c :: s.locks[i],
       emails := map e | e in s.emails && s.emails[e] != c :: s.emails[e])
  }

  function Written(t: Tables, c: nat, email: string, i: nat): Tables
    requires i in t.invitations
  {
    Tables(t.invitations[i := t.invitations[i].(useCount := t.invitations[i].useCount + 1)],
           t.users[c := User(c, email)],
           t.workspaces[c := Workspace(c, DEFAULT_WATCHLIST)],
           t.redemptions[c := i],
           t.logins)
  }

  function Step(s: System, e: Event): System {
    if !Enabled(s, e) then s else
    match e
    case CreateInvitation(i, maxUses, expiresAt) =>
      s.(tables := s.tables.(invitations := s.tables.invitations[i := Invitation(maxUses, 0, expiresAt, None)]))
    case Disable(i, now) =>
      var row := s.tables.invitations[i];
      if row.disabledAt.Some? then s
      else s.(tables := s.tables.(invitations := s.tables.invitations[i := row.(disabledAt := Some(now))]))
    case Login(c) =>
      s.(tables := s.tables.(logins := s.tables.logins[c := User(c, s.calls[c].email)]))
    case Begin(c, email, invitation) =>
      s.(calls := s.calls[c := Call(email, invitation, if email in s.admins then Ended(Unavailable) else AtLock)])
    case Lock(c, now) =>
      var i := s.calls[c].invitation;
      if i.None? || i.value !in s.tables.invitations || !Available(s.tables.invitations[i.value], now)
      then Goto(s, c, Ended(Unavailable))
      else Goto(s, c, AtEmailCheck).(locks := s.locks[i.value := c])
    case CheckEmail(c) =>
      if HasEmail(s.tables, s.calls[c].email) then Release(Goto(s, c, Ended(Unavailable)), c)
      else Goto(s, c, AtCreate)
    case CreateIdentity(c) => Goto(s, c, AtFlush).(identities := s.identities + {c})
    case CreateIdentityFails(c, created) =>
      Release(Goto(s, c, Ended(Unavailable)), c).(identities := if created then s.identities + {c} else s.identities)
    case Flush(c) =>
      if HasEmail(s.tables, s.calls[c].email) then Release(Goto(s, c, AtCompensate), c)
      else Goto(s, c, AtCommit).(emails := s.emails[s.calls[c].email := c])
    case Fail(c) => Release(Goto(s, c, AtCompensate), c)
    case Commit(c, acknowledged) =>
      var i := s.calls[c].invitation;
      if i.None? || i.value !in s.tables.invitations then s else
      Release(Goto(s, c, if acknowledged then Ended(Registered) else AtCompensate), c)
        .(tables := Written(s.tables, c, s.calls[c].email, i.value),
          unacknowledged := if acknowledged then s.unacknowledged else s.unacknowledged + {c})
    case Compensate(c, deleted) =>
      Goto(s, c, Ended(Raised))
        .(identities := if deleted then s.identities - {c} else s.identities)
    case Die(c) => Release(Goto(s, c, Ended(Died)), c)
  }

  function Run(s: System, es: seq<Event>): System {
    if es == [] then s else Step(Run(s, es[..|es| - 1]), es[|es| - 1])
  }

  function After(admins: set<string>, es: seq<Event>): System {
    Run(Alone(admins, NO_TABLES, {}), es)
  }

  // ----- The inductive invariant -----

  predicate CallInv(s: System, c: nat)
    requires c in s.calls
  {
    var call := s.calls[c];
    && (InTransaction(call) ==>
          && call.invitation.Some? && call.invitation.value in s.tables.invitations
          && call.invitation.value in s.locks && s.locks[call.invitation.value] == c
          && s.tables.invitations[call.invitation.value].useCount < s.tables.invitations[call.invitation.value].maxUses
          && s.tables.invitations[call.invitation.value].disabledAt.None?)
    && (call.pc == AtCommit ==>
          call.email in s.emails && s.emails[call.email] == c && !HasEmail(s.tables, call.email))
    && (call.pc in {AtFlush, AtCommit} ==> c in s.identities)
    && (c in s.tables.users ==> call.pc in {Ended(Registered), AtCompensate, Ended(Raised), Ended(Died)})
    && (c in s.tables.users && c !in s.unacknowledged ==> call.pc == Ended(Registered) && c in s.identities)
    && (call.pc == Ended(Registered) ==> c in s.tables.users)
    && (c in s.unacknowledged ==> c in s.tables.users)
    && (call.email in s.admins ==> call.pc == Ended(Unavailable))
  }

  predicate HoldsLock(s: System, i: nat)
    requires i in s.locks
  {
    var c := s.locks[i];
    c in s.calls && InTransaction(s.calls[c]) && s.calls[c].invitation == Some(i)
  }

  predicate HoldsEmail(s: System, m: string)
    requires m in s.emails
  {
    At(s, s.emails[m], AtCommit) && s.calls[s.emails[m]].email == m
  }

  predicate LockInv(s: System) {
    && (forall i :: i in s.locks ==> HoldsLock(s, i))
    && (forall m :: m in s.emails ==> HoldsEmail(s, m))
  }

  predicate UserInv(s: System, u: nat)
    requires u in s.tables.users
  {
    && u in s.calls && s.tables.users[u] == User(u, s.calls[u].email)
    && u in s.tables.workspaces && s.tables.workspaces[u] == Workspace(u, DEFAULT_WATCHLIST)
    && u in s.tables.redemptions && s.calls[u].invitation == Some(s.tables.redemptions[u])
    && s.tables.redemptions[u] in s.tables.invitations
  }

  /** Users that redeemed invitation `i`. */
  function Redeemers(t: Tables, i: nat): set<nat> {
    set u | u in t.redemptions && t.redemptions[u] == i
  }

  predicate InvitationInv(t: Tables, i: nat)
    requires i in t.invitations
  {
    t.invitations[i].useCount == |Redeemers(t, i)| <= t.invitations[i].maxUses
  }

  /** An address belongs to one user, whoever committed it. */
  predicate EmailInv(t: Tables) {
    && (forall u, v | u in t.users && v in t.users :: t.users[u].email == t.users[v].email ==> u == v)
    && (forall u, v | u in t.logins && v in t.logins :: t.logins[u].email == t.logins[v].email ==> u == v)
    && (forall u, v | u in t.users && v in t.logins :: t.users[u].email != t.logins[v].email)
  }

  predicate LoginInv(s: System, u: nat)
    requires u in s.tables.logins
  {
    u in s.calls && s.tables.logins[u] == User(u, s.calls[u].email)
  }

  ghost predicate Inv(s: System) {
    && LockInv(s) && EmailInv(s.tables)
    && s.tables.users.Keys == s.tables.workspaces.Keys == s.tables.redemptions.Keys
    && (forall c :: c in s.calls ==> CallInv(s, c))
    && (forall u :: u in s.tables.users ==> UserInv(s, u))
    && (forall u :: u in s.tables.logins ==> LoginInv(s, u))
    && (forall i :: i in s.tables.invitations ==> InvitationInv(s.tables, i))
    && s.unacknowledged <= s.calls.Keys
  }

  // ----- What one step can change -----

  predicate Commits(s: System, e: Event) {
    e.Commit? && Enabled(s, e)
  }

  predicate LogsIn(s: System, e: Event) {
    e.Login? && Enabled(s, e)
  }

  /** Whether the step belongs to registration `c`. */
  predicate IsBy(e: Event, c: nat) {
    match e
    case CreateInvitation(_, _, _) => false
    case Disable(_, _) => false
    case Login(_) => false
    case Begin(d, _, _) => c == d
    case Lock(d, _) => c == d
    case CheckEmail(d) => c == d
    case CreateIdentity(d) => c == d
    case CreateIdentityFails(d, _) => c == d
    case Flush(d) => c == d
    case Fail(d) => c == d
    case Commit(d, _) => c == d
    case Compensate(d, _) => c == d
    case Die(d) => c == d
  }

  predicate InvitationsStay(a: Tables, b: Tables) {
    && a.invitations.Keys <= b.invitations.Keys
    && (forall i | i in a.invitations ::
          && b.invitations[i].useCount == a.invitations[i].useCount
          && b.invitations[i].maxUses == a.invitations[i].maxUses
          && (a.invitations[i].disabledAt.Some? ==> b.invitations[i].disabledAt.Some?))
    && (forall i :: i in b.invitations && i !in a.invitations ==> b.invitations[i].useCount == 0)
  }

  /** Only a commit writes users, workspaces, redemptions and use counts, only a login the
      users by login, and a locked invitation is not disabled. */
  ghost predicate TablesEffect(s: System, e: Event, t: System) {
    && t.admins == s.admins
    && if Commits(s, e) then
      && s.calls[e.c].invitation.Some? && s.calls[e.c].invitation.value in s.tables.invitations
      && t.tables == Written(s.tables, e.c, s.calls[e.c].email, s.calls[e.c].invitation.value)
      && e.c !in s.tables.users
    else
      RowsEffect(s, e, t.tables) && InvitationsEffect(s, t.tables)
  }

  ghost predicate RowsEffect(s: System, e: Event, t: Tables) {
    && t.users == s.tables.users && t.workspaces == s.tables.workspaces && t.redemptions == s.tables.redemptions
    && t.logins == if LogsIn(s, e) then s.tables.logins[e.c := User(e.c, s.calls[e.c].email)] else s.tables.logins
  }

  ghost predicate InvitationsEffect(s: System, t: Tables) {
    && InvitationsStay(s.tables, t)
    && (forall i :: i in s.tables.invitations && i in s.locks ==> t.invitations[i] == s.tables.invitations[i])
  }

  /** A call keeps its arguments, and one that does not move keeps what it has at the provider. */
  ghost predicate CallEffect(s: System, e: Event, t: System, c: nat) {
    && (c in s.calls ==>
          c in t.calls && t.calls[c].email == s.calls[c].email && t.calls[c].invitation == s.calls[c].invitation)
    && (c in t.calls && !IsBy(e, c) ==>
          && c in s.calls && t.calls[c] == s.calls[c]
          && (c in t.identities <==> c in s.identities)
          && (c in t.unacknowledged <==> c in s.unacknowledged))
    && (c !in t.calls ==> (c in t.unacknowledged <==> c in s.unacknowledged))
  }

  /** Calls that do not move keep the rows they hold locked. */
  ghost predicate LocksEffect(s: System, e: Event, t: System) {
    && (forall i :: i in s.locks && !IsBy(e, s.locks[i]) ==> i in t.locks && t.locks[i] == s.locks[i])
    && (forall i :: i in t.locks && !IsBy(e, t.locks[i]) ==> i in s.locks && s.locks[i] == t.locks[i])
  }

  /** And their pending index entries. */
  ghost predicate EmailsEffect(s: System, e: Event, t: System) {
    && (forall m :: m in s.emails && !IsBy(e, s.emails[m]) ==> m in t.emails && t.emails[m] == s.emails[m])
    && (forall m :: m in t.emails && !IsBy(e, t.emails[m]) ==> m in s.emails && s.emails[m] == t.emails[m])
  }

  lemma CommitTables(s: System, e: Event)
    requires Commits(s, e) && CallInv(s, e.c)
    ensures TablesEffect(s, e, Step(s, e))
  {
  }

  lemma OtherRows(s: System, e: Event)
    requires !Commits(s, e)
    ensures RowsEffect(s, e, Step(s, e).tables) && Step(s, e).admins == s.admins
  {
    if !Enabled(s, e) { assert Step(s, e) == s; }
  }

  lemma OtherInvitations(s: System, e: Event)
    requires !Commits(s, e)
    ensures InvitationsEffect(s, Step(s, e).tables)
  {
    if !Enabled(s, e) { assert Step(s, e) == s; }
    if !e.CreateInvitation? && !e.Disable? { assert Step(s, e).tables.invitations == s.tables.invitations; }
  }

  lemma StepTables(s: System, e: Event)
    requires Commits(s, e) ==> CallInv(s, e.c)
    ensures TablesEffect(s, e, Step(s, e))
  {
    if Commits(s, e) {
      CommitTables(s, e);
    } else {
      OtherRows(s, e);
      OtherInvitations(s, e);
    }
  }

  lemma StepCall(s: System, e: Event, c: nat)
    ensures CallEffect(s, e, Step(s, e), c)
  {
  }

  lemma StepLocks(s: System, e: Event)
    requires LockInv(s)
    ensures LocksEffect(s, e, Step(s, e))
  {
    if !Enabled(s, e) { assert Step(s, e) == s; }
  }

  lemma StepEmails(s: System, e: Event)
    requires LockInv(s)
    ensures EmailsEffect(s, e, Step(s, e))
  {
    if !Enabled(s, e) { assert Step(s, e) == s; }
  }

  // ----- The invariant is inductive -----

  lemma KeepsUser(s: System, e: Event, t: System, u: nat)
    requires TablesEffect(s, e, t) && CallEffect(s, e, t, u) && u in t.tables.users
    requires u in s.tables.users ==> UserInv(s, u)
    ensures UserInv(t, u)
  {
  }

  lemma KeepsEmails(s: System, e: Event, t: System)
    requires TablesEffect(s, e, t) && EmailInv(s.tables)
    requires Commits(s, e) ==> CallInv(s, e.c)
    ensures EmailInv(t.tables)
  {
  }

  lemma KeepsInvitation(s: System, e: Event, t: System, i: nat)
    requires TablesEffect(s, e, t) && i in t.tables.invitations
    requires s.tables.users.Keys == s.tables.redemptions.Keys
    requires i in s.tables.invitations ==> InvitationInv(s.tables, i)
    requires forall u :: u in s.tables.redemptions ==> s.tables.redemptions[u] in s.tables.invitations
    requires Commits(s, e) ==> CallInv(s, e.c)
    ensures InvitationInv(t.tables, i)
  {
    if i !in s.tables.invitations {
      assert Redeemers(t.tables, i) == {};
    } else if Commits(s, e) && s.calls[e.c].invitation == Some(i) {
      assert Redeemers(t.tables, i) == Redeemers(s.tables, i) + {e.c};
    } else {
      assert Redeemers(t.tables, i) == Redeemers(s.tables, i);
    }
  }

  lemma KeepsLogin(s: System, e: Event, t: System, u: nat)
    requires TablesEffect(s, e, t) && CallEffect(s, e, t, u) && u in t.tables.logins
    requires u in s.tables.logins ==> LoginInv(s, u)
    ensures LoginInv(t, u)
  {
  }

  lemma EmailsAfterCommit(t: Tables, c: nat, email: string, i: nat, other: string)
    requires i in t.invitations && c !in t.users
    ensures HasEmail(Written(t, c, email, i), other) <==> HasEmail(t, other) || other == email
  {
    var w := Written(t, c, email, i).users;
    assert w[c].email == email;
    if u :| u in t.users && t.users[u].email == other {
      assert w[u].email == other;
    }
  }

  lemma EmailsAfterLogin(t: Tables, w: Tables, user: User, c: nat, other: string)
    requires c !in t.logins && w.users == t.users && w.logins == t.logins[c := user]
    ensures HasEmail(w, other) <==> HasEmail(t, other) || other == user.email
  {
    assert w.logins[c].email == user.email;
    if u :| u in t.logins && t.logins[u].email == other {
      assert w.logins[u].email == other;
    }
  }

  /** A login leaves alone the address that a call is about to commit. */
  lemma LoginSparesCommit(s: System, e: Event, t: System, c: nat)
    requires LogsIn(s, e) && TablesEffect(s, e, t)
    requires c in s.calls && s.calls[c].pc == AtCommit && CallInv(s, c)
    requires e.c in s.tables.logins ==> LoginInv(s, e.c)
    ensures !HasEmail(t.tables, s.calls[c].email)
  {
    if e.c in s.tables.logins {
      assert false;
    } else {
      EmailsAfterLogin(s.tables, t.tables, User(e.c, s.calls[e.c].email), e.c, s.calls[c].email);
    }
  }

  /** A call that does not move keeps its invariant: its locked row and its index entry stay. */
  lemma KeepsOtherCall(s: System, e: Event, t: System, c: nat)
    requires TablesEffect(s, e, t) && CallEffect(s, e, t, c) && LocksEffect(s, e, t) && EmailsEffect(s, e, t)
    requires c in t.calls && !IsBy(e, c)
    requires c in s.calls ==> CallInv(s, c)
    requires Commits(s, e) ==> CallInv(s, e.c)
    requires LogsIn(s, e) && e.c in s.tables.logins ==> LoginInv(s, e.c)
    ensures CallInv(t, c)
  {
    if Commits(s, e) {
      EmailsAfterCommit(s.tables, e.c, s.calls[e.c].email, s.calls[e.c].invitation.value, t.calls[c].email);
    }
    if LogsIn(s, e) && s.calls[c].pc == AtCommit { LoginSparesCommit(s, e, t, c); }
  }

  lemma KeepsOwnCall(s: System, e: Event, c: nat)
    requires LockInv(s) && IsBy(e, c) && c in Step(s, e).calls
    requires c in s.calls ==> CallInv(s, c)
    requires c !in s.calls ==> c !in s.tables.users && c !in s.unacknowledged
    ensures CallInv(Step(s, e), c)
  {
  }

  lemma KeepsLock(s: System, e: Event, i: nat)
    requires LockInv(s) && i in Step(s, e).locks
    ensures HoldsLock(Step(s, e), i)
  {
    var c := Step(s, e).locks[i];
    if IsBy(e, c) {
      OwnLock(s, e, i, c);
    } else {
      StepLocks(s, e);
      StepCall(s, e, c);
    }
  }

  lemma OwnLock(s: System, e: Event, i: nat, c: nat)
    requires LockInv(s) && i in Step(s, e).locks && Step(s, e).locks[i] == c && IsBy(e, c)
    ensures HoldsLock(Step(s, e), i)
  {
  }

  lemma KeepsEmail(s: System, e: Event, m: string)
    requires LockInv(s) && m in Step(s, e).emails
    ensures HoldsEmail(Step(s, e), m)
  {
    var c := Step(s, e).emails[m];
    if IsBy(e, c) {
      OwnEmail(s, e, m, c);
    } else {
      StepEmails(s, e);
      StepCall(s, e, c);
    }
  }

  lemma OwnEmail(s: System, e: Event, m: string, c: nat)
    requires LockInv(s) && m in Step(s, e).emails && Step(s, e).emails[m] == c && IsBy(e, c)
    ensures HoldsEmail(Step(s, e), m)
  {
  }

  lemma LocksStay(s: System, e: Event)
    requires LockInv(s)
    ensures LockInv(Step(s, e))
  {
    forall i | i in Step(s, e).locks ensures HoldsLock(Step(s, e), i) { KeepsLock(s, e, i); }
    forall m | m in Step(s, e).emails ensures HoldsEmail(Step(s, e), m) { KeepsEmail(s, e, m); }
  }

  lemma CallsStay(s: System, e: Event, c: nat)
    requires Inv(s) && c in Step(s, e).calls
    ensures CallInv(Step(s, e), c)
  {
    StepTables(s, e);
    StepLocks(s, e);
    StepEmails(s, e);
    StepCall(s, e, c);
    if IsBy(e, c) { KeepsOwnCall(s, e, c); } else { KeepsOtherCall(s, e, Step(s, e), c); }
  }

  lemma RowsStay(s: System, e: Event, t: System)
    requires Inv(s) && TablesEffect(s, e, t)
    requires forall c :: CallEffect(s, e, t, c)
    requires LockInv(t)
    requires forall c :: c in t.calls ==> CallInv(t, c)
    ensures Inv(t)
  {
    KeepsEmails(s, e, t);
    UsersStay(s, e, t);
    LoginsStay(s, e, t);
    InvitationsKeep(s, e, t);
    forall c | c in t.unacknowledged ensures c in t.calls { assert CallEffect(s, e, t, c); }
  }

  lemma UsersStay(s: System, e: Event, t: System)
    requires Inv(s) && TablesEffect(s, e, t)
    requires forall c :: CallEffect(s, e, t, c)
    ensures forall u :: u in t.tables.users ==> UserInv(t, u)
    ensures t.tables.users.Keys == t.tables.workspaces.Keys == t.tables.redemptions.Keys
  {
    forall u | u in t.tables.users ensures UserInv(t, u) { KeepsUser(s, e, t, u); }
  }

  lemma LoginsStay(s: System, e: Event, t: System)
    requires Inv(s) && TablesEffect(s, e, t)
    requires forall c :: CallEffect(s, e, t, c)
    ensures forall u :: u in t.tables.logins ==> LoginInv(t, u)
  {
    forall u | u in t.tables.logins ensures LoginInv(t, u) { KeepsLogin(s, e, t, u); }
  }

  lemma InvitationsKeep(s: System, e: Event, t: System)
    requires Inv(s) && TablesEffect(s, e, t)
    ensures forall i :: i in t.tables.invitations ==> InvitationInv(t.tables, i)
  {
    forall u | u in s.tables.redemptions ensures s.tables.redemptions[u] in s.tables.invitations {
      assert UserInv(s, u);
    }
    forall i | i in t.tables.invitations ensures InvitationInv(t.tables, i) { KeepsInvitation(s, e, t, i); }
  }

  lemma StepKeepsInv(s: System, e: Event)
    requires Inv(s)
    ensures Inv(Step(s, e))
  {
    StepTables(s, e);
    LocksStay(s, e);
    forall c ensures CallEffect(s, e, Step(s, e), c) { StepCall(s, e, c); }
    forall c | c in Step(s, e).calls ensures CallInv(Step(s, e), c) { CallsStay(s, e, c); }
    RowsStay(s, e, Step(s, e));
  }

  lemma {:induction false} RunKeepsInv(admins: set<string>, es: seq<Event>)
    ensures Inv(After(admins, es))
    decreases |es|
  {
    if es != [] {
      RunKeepsInv(admins, es[..|es| - 1]);
      StepKeepsInv(After(admins, es[..|es| - 1]), es[|es| - 1]);
    }
  }

  // ----- What every run keeps -----

  /** The uses of an invitation are its redemptions, never more than it allows. */
  lemma UsesAreCounted(admins: set<string>, es: seq<Event>, i: nat)
    requires i in After(admins, es).tables.invitations
    ensures var t := After(admins, es).tables;
      t.invitations[i].useCount == |Redeemers(t, i)| && |Redeemers(t, i)| <= t.invitations[i].maxUses
  {
    RunKeepsInv(admins, es);
  }

  /** The workspaces that belong to `u`. */
  function Owned(t: Tables, u: nat): set<nat> {
    set w | w in t.workspaces && t.workspaces[w].owner == u
  }

  /** A registered user owns one workspace with the whole default watchlist, redeemed the
      invitation whose code it gave, shares its address with nobody and is no administrator. */
  lemma UsersAreComplete(admins: set<string>, es: seq<Event>, u: nat)
    requires u in After(admins, es).tables.users
    ensures var s := After(admins, es);
      && |Owned(s.tables, u)| == 1
      && (forall w | w in Owned(s.tables, u) ::
            s.tables.workspaces[w].watchlist == {"AAPL", "AMZN", "META", "MSFT", "NVDA", "SPY", "TSLA"})
      && u in s.calls && u in s.tables.redemptions
      && s.calls[u].invitation == Some(s.tables.redemptions[u])
      && s.tables.redemptions[u] in s.tables.invitations
      && s.tables.users[u].subject == u && s.tables.users[u].email == s.calls[u].email
      && s.tables.users[u].email !in admins
      && (forall v | v in s.tables.users && v != u :: s.tables.users[v].email != s.tables.users[u].email)
      && (forall v | v in s.tables.logins :: s.tables.logins[v].email != s.tables.users[u].email)
  {
    RunKeepsInv(admins, es);
    AdminsStay(admins, es);
    var s := After(admins, es);
    assert UserInv(s, u) && CallInv(s, u);
    forall w | w in Owned(s.tables, u) ensures w == u { assert UserInv(s, w); }
    assert Owned(s.tables, u) == {u};
  }

  lemma {:induction false} AdminsStay(admins: set<string>, es: seq<Event>)
    ensures After(admins, es).admins == admins
    decreases |es|
  {
    if es != [] {
      var before := es[..|es| - 1];
      AdminsStay(admins, before);
      RunKeepsInv(admins, before);
      StepTables(After(admins, before), es[|es| - 1]);
    }
  }

  // ----- Passing the lock -----

  /** What an invitation must be to let a registration pass at time `now`. */
  lemma AvailableMeans(i: Invitation, now: int)
    ensures Available(i, now) <==>
      i.disabledAt.None? && (i.expiresAt.Some? ==> now < i.expiresAt.value) && i.useCount < i.maxUses
  {
  }

  /** A call at its lock passes exactly when its code matches an invitation that is not
      disabled, not expired and not used up. */
  lemma LockPassesIff(s: System, c: nat, now: int)
    requires Enabled(s, Lock(c, now))
    ensures var i := s.calls[c].invitation; var rows := s.tables.invitations;
      At(Step(s, Lock(c, now)), c, AtEmailCheck) <==>
        && i.Some? && i.value in rows
        && rows[i.value].disabledAt.None?
        && (rows[i.value].expiresAt.None? || now < rows[i.value].expiresAt.value)
        && rows[i.value].useCount < rows[i.value].maxUses
  {
  }

  /** Call `c` passed the lock of invitation `i` at event `k`, at time `now`: the row was then
      not disabled, not expired and not used up. */
  ghost predicate PassedLockAt(admins: set<string>, es: seq<Event>, c: nat, i: nat, k: int, now: int) {
    && 0 <= k < |es| && es[k] == Lock(c, now) && Enabled(After(admins, es[..k]), es[k])
    && i in After(admins, es[..k]).tables.invitations
    && var row := After(admins, es[..k]).tables.invitations[i];
      && row.disabledAt.None? && (row.expiresAt.None? || now < row.expiresAt.value) && row.useCount < row.maxUses
  }

  /** The call is past its lock, or has a committed user. */
  predicate IsPastLock(s: System, c: nat) {
    c in s.calls && (InTransaction(s.calls[c]) || c in s.tables.users)
  }

  lemma LockIsPassed(s: System, e: Event, c: nat)
    requires Inv(s) && !IsPastLock(s, c) && IsPastLock(Step(s, e), c)
    ensures e.Lock? && e.c == c && Enabled(s, e) && c in Step(s, e).calls
    ensures s.calls[c].invitation.Some? && s.calls[c].invitation == Step(s, e).calls[c].invitation
    ensures At(Step(s, e), c, AtEmailCheck)
  {
    StepTables(s, e);
    StepCall(s, e, c);
    if IsBy(e, c) { OwnLockIsPassed(s, e, c); }
  }

  lemma OwnLockIsPassed(s: System, e: Event, c: nat)
    requires IsBy(e, c) && !IsPastLock(s, c) && IsPastLock(Step(s, e), c)
    requires c in s.calls ==> CallInv(s, c)
    requires c !in s.calls ==> c !in s.tables.users
    ensures e.Lock? && e.c == c && Enabled(s, e) && c in Step(s, e).calls
    ensures s.calls[c].invitation.Some? && s.calls[c].invitation == Step(s, e).calls[c].invitation
    ensures At(Step(s, e), c, AtEmailCheck)
  {
  }

  lemma {:induction false} PastLockPassed(admins: set<string>, es: seq<Event>, c: nat)
    returns (i: nat, k: int, now: int)
    requires IsPastLock(After(admins, es), c)
    ensures After(admins, es).calls[c].invitation == Some(i) && PassedLockAt(admins, es, c, i, k, now)
    decreases |es|
  {
    var n := |es| - 1;
    var s := After(admins, es[..n]);
    RunKeepsInv(admins, es[..n]);
    if IsPastLock(s, c) {
      i, k, now := PastLockPassed(admins, es[..n], c);
      StepCall(s, es[n], c);
      assert es[..n][..k] == es[..k];
    } else {
      LockIsPassed(s, es[n], c);
      LockPassesIff(s, c, es[n].now);
      i, k, now := s.calls[c].invitation.value, n, es[n].now;
    }
  }

  /** In every run a registered user had passed the lock of the invitation that it redeemed,
      which was then not disabled, not expired and not used up. */
  lemma RegisteredOnAvailable(admins: set<string>, es: seq<Event>, u: nat) returns (k: int, now: int)
    requires u in After(admins, es).tables.users
    ensures u in After(admins, es).tables.redemptions
    ensures PassedLockAt(admins, es, u, After(admins, es).tables.redemptions[u], k, now)
  {
    RunKeepsInv(admins, es);
    assert UserInv(After(admins, es), u);
    var i;
    i, k, now := PastLockPassed(admins, es, u);
  }

  // ----- What happened in a run -----

  /** Event `e` took place in the run of `es`. */
  ghost predicate Happened(admins: set<string>, es: seq<Event>, e: Event) {
    exists k | 0 <= k < |es| :: es[k] == e && Enabled(After(admins, es[..k]), e)
  }

  ghost predicate Committed(admins: set<string>, es: seq<Event>, c: nat) {
    Happened(admins, es, Commit(c, true)) || Happened(admins, es, Commit(c, false))
  }

  lemma HappenedSnoc(admins: set<string>, es: seq<Event>, last: Event, e: Event)
    ensures Happened(admins, es + [last], e) <==>
            Happened(admins, es, e) || (last == e && Enabled(After(admins, es), e))
  {
    var all := es + [last];
    forall k | 0 <= k < |es| ensures all[..k] == es[..k] && all[k] == es[k] {}
    assert all[..|es|] == es && all[|es|] == last;
    if Happened(admins, es, e) {
      var k :| 0 <= k < |es| && es[k] == e && Enabled(After(admins, es[..k]), e);
      assert all[k] == e && Enabled(After(admins, all[..k]), e);
    }
  }

  lemma RunSnoc(s: System, es: seq<Event>, e: Event)
    ensures Run(s, es + [e]) == Step(Run(s, es), e)
  {
    assert (es + [e])[..|es|] == es;
  }

  lemma ScriptStep(s: System, es: seq<Event>, k: nat)
    requires k < |es|
    ensures Run(s, es[..k + 1]) == Step(Run(s, es[..k]), es[k])
  {
    assert es[..k + 1] == es[..k] + [es[k]];
    RunSnoc(s, es[..k], es[k]);
  }

  /** What one step does to the rows of `c`. */
  lemma StepRows(s: System, e: Event, c: nat)
    requires Commits(s, e) ==> CallInv(s, e.c)
    ensures var t := Step(s, e);
      && (c in t.tables.users <==> c in s.tables.users || (e.Commit? && e.c == c && Enabled(s, e)))
      && (c in t.tables.logins <==> c in s.tables.logins || (e == Login(c) && Enabled(s, e)))
  {
    StepTables(s, e);
    RowOf(s, e, Step(s, e), c);
  }

  lemma RowOf(s: System, e: Event, t: System, c: nat)
    requires TablesEffect(s, e, t)
    ensures c in t.tables.users <==> c in s.tables.users || (e.Commit? && e.c == c && Enabled(s, e))
    ensures c in t.tables.logins <==> c in s.tables.logins || (e == Login(c) && Enabled(s, e))
  {
  }

  lemma StepUnacknowledged(s: System, e: Event, c: nat)
    requires Commits(s, e) ==> CallInv(s, e.c)
    ensures c in Step(s, e).unacknowledged <==> c in s.unacknowledged || (e == Commit(c, false) && Enabled(s, e))
  {
  }

  /** What one step does to the identity of `c`: it comes by its creation, and goes by the
      compensation only. */
  lemma StepIdentity(s: System, e: Event, c: nat)
    ensures var t := Step(s, e); var deletes := e == Compensate(c, true) && Enabled(s, e);
      && (deletes ==> c !in t.identities && c in t.calls && t.calls[c].pc.Ended?)
      && (!deletes && c in s.identities ==> c in t.identities)
      && (c in s.calls && s.calls[c].pc.Ended? ==>
            c in t.calls && t.calls[c].pc.Ended? && (c in t.identities <==> c in s.identities))
  {
  }

  /** The rows of a registration exist exactly when its commit happened, and it is
      unacknowledged exactly when that commit lost its reply. */
  lemma {:induction false} WrittenIffCommitted(admins: set<string>, es: seq<Event>, c: nat)
    ensures var s := After(admins, es);
      && (c in s.tables.users <==> Committed(admins, es, c))
      && (c in s.tables.workspaces <==> Committed(admins, es, c))
      && (c in s.tables.redemptions <==> Committed(admins, es, c))
      && (c in s.unacknowledged <==> Happened(admins, es, Commit(c, false)))
      && (c in s.tables.logins <==> Happened(admins, es, Login(c)))
    decreases |es|
  {
    RunKeepsInv(admins, es);
    if es != [] {
      var before, last := es[..|es| - 1], es[|es| - 1];
      assert es == before + [last];
      WrittenIffCommitted(admins, before, c);
      RunKeepsInv(admins, before);
      StepRows(After(admins, before), last, c);
      StepUnacknowledged(After(admins, before), last, c);
      HappenedSnoc(admins, before, last, Commit(c, true));
      HappenedSnoc(admins, before, last, Commit(c, false));
      HappenedSnoc(admins, before, last, Login(c));
    }
  }

  /** A registration or a login has committed a user for the subject `c`. */
  predicate HasLocalUser(s: System, c: nat) {
    c in s.tables.users || c in s.tables.logins
  }

  lemma UserHasIdentity(s: System, e: Event, c: nat)
    requires Inv(s) && !HasLocalUser(s, c) && HasLocalUser(Step(s, e), c)
    ensures c in s.identities && e != Compensate(c, true)
  {
    StepRows(s, e, c);
    if c in s.calls { assert CallInv(s, c); }
  }

  /** A deleted identity stays deleted, and that of a local user goes only by that deletion. */
  lemma {:induction false} DeletedIdentities(admins: set<string>, es: seq<Event>, c: nat)
    ensures var s := After(admins, es); var deleted := Happened(admins, es, Compensate(c, true));
      && (deleted ==> c !in s.identities && c in s.calls && s.calls[c].pc.Ended?)
      && (HasLocalUser(s, c) && !deleted ==> c in s.identities)
    decreases |es|
  {
    if es != [] {
      var before, last := es[..|es| - 1], es[|es| - 1];
      assert es == before + [last];
      var s := After(admins, before);
      DeletedIdentities(admins, before, c);
      RunKeepsInv(admins, before);
      StepIdentity(s, last, c);
      HappenedSnoc(admins, before, last, Compensate(c, true));
      if !HasLocalUser(s, c) && HasLocalUser(After(admins, es), c) { UserHasIdentity(s, last, c); }
    }
  }

  /** Exactly when the compensation deletes the identity of a committed user: the provider
      carried the deletion out, and either the commit had succeeded and lost its reply, or a
      login had committed a user for the new subject. */
  lemma IdentityIsLostIff(admins: set<string>, es: seq<Event>, c: nat)
    ensures var s := After(admins, es);
      HasLocalUser(s, c) && c !in s.identities
      <==> Happened(admins, es, Compensate(c, true))
           && (Happened(admins, es, Commit(c, false)) || Happened(admins, es, Login(c)))
  {
    RunKeepsInv(admins, es);
    WrittenIffCommitted(admins, es, c);
    DeletedIdentities(admins, es, c);
    if c in After(admins, es).tables.users { assert CallInv(After(admins, es), c); }
  }

  /** A registration that was told of its commit keeps its identity whatever happens later. */
  lemma RegisteredKeepsIdentity(admins: set<string>, es: seq<Event>, later: seq<Event>, c: nat)
    requires Happened(admins, es, Commit(c, true))
    ensures var s := After(admins, es + later);
      c in s.identities && c in s.tables.users && At(s, c, Ended(Registered))
  {
    HappenedLater(admins, es, later, Commit(c, true));
    AcknowledgedOnce(admins, es + later, c);
    WrittenIffCommitted(admins, es + later, c);
    RunKeepsInv(admins, es + later);
    assert UserInv(After(admins, es + later), c) && CallInv(After(admins, es + later), c);
  }

  lemma HappenedLater(admins: set<string>, es: seq<Event>, later: seq<Event>, e: Event)
    requires Happened(admins, es, e)
    ensures Happened(admins, es + later, e)
  {
    var k :| 0 <= k < |es| && es[k] == e && Enabled(After(admins, es[..k]), e);
    assert (es + later)[..k] == es[..k] && (es + later)[k] == e;
  }

  /** A registration commits once, so its reply does not come and also get lost. */
  lemma {:induction false} AcknowledgedOnce(admins: set<string>, es: seq<Event>, c: nat)
    ensures !(Happened(admins, es, Commit(c, true)) && Happened(admins, es, Commit(c, false)))
    decreases |es|
  {
    if es != [] {
      var before, last := es[..|es| - 1], es[|es| - 1];
      assert es == before + [last];
      AcknowledgedOnce(admins, before, c);
      HappenedSnoc(admins, before, last, Commit(c, true));
      HappenedSnoc(admins, before, last, Commit(c, false));
      if At(After(admins, before), c, AtCommit) { NotCommittedYet(admins, before, c); }
    }
  }

  lemma NotCommittedYet(admins: set<string>, es: seq<Event>, c: nat)
    requires At(After(admins, es), c, AtCommit)
    ensures !Committed(admins, es, c)
  {
    RunKeepsInv(admins, es);
    assert CallInv(After(admins, es), c);
    WrittenIffCommitted(admins, es, c);
  }

  /** The compensation of a registration that wrote nothing is the only other one. */
  lemma CompensatesCommittedIff(admins: set<string>, es: seq<Event>, c: nat)
    requires At(After(admins, es), c, AtCompensate)
    ensures c in After(admins, es).tables.users <==> Happened(admins, es, Commit(c, false))
  {
    RunKeepsInv(admins, es);
    WrittenIffCommitted(admins, es, c);
    assert CallInv(After(admins, es), c);
  }

  const LOST_REPLY := [
    CreateInvitation(0, 1, None), Begin(7, "ann@desk", Some(0)), Lock(7, 0), CheckEmail(7),
    CreateIdentity(7), Flush(7), Commit(7, false), Compensate(7, true)]

  /** Registration 7 holds the row lock of invitation 0. */
  function Holding(pc: Pc, identities: set<nat>, emails: map<string, nat>): System {
    System({}, Tables(map[0 := Invitation(1, 0, None, None)], map[], map[], map[], map[]), identities,
           map[7 := Call("ann@desk", Some(0), pc)], map[0 := 7], emails, {})
  }

  lemma RunPrefix(k: nat)
    requires k < |LOST_REPLY|
    ensures After({}, LOST_REPLY[..k + 1]) == Step(After({}, LOST_REPLY[..k]), LOST_REPLY[k])
  {
    ScriptStep(Alone({}, NO_TABLES, {}), LOST_REPLY, k);
  }

  lemma LockIsTaken()
    ensures After({}, LOST_REPLY[..3]) == Holding(AtEmailCheck, {}, map[])
  {
    RunPrefix(0); RunPrefix(1); RunPrefix(2);
  }

  lemma IdentityIsCreated()
    ensures After({}, LOST_REPLY[..5]) == Holding(AtFlush, {7}, map[])
  {
    LockIsTaken();
    RunPrefix(3); RunPrefix(4);
  }

  lemma RowsAreFlushed()
    ensures After({}, LOST_REPLY[..6]) == Holding(AtCommit, {7}, map["ann@desk" := 7])
  {
    IdentityIsCreated();
    RunPrefix(5);
  }

  lemma ReplyIsLost()
    ensures var s := After({}, LOST_REPLY[..7]);
      At(s, 7, AtCompensate) && 7 in s.tables.users && Redeemers(s.tables, 0) == {7}
  {
    RowsAreFlushed();
    RunPrefix(6);
  }

  /** The compensation does delete a committed user's identity: one registration, alone,
      whose commit succeeds without a reply. */
  lemma CompensationCanHitCommitted()
    ensures var s := After({}, LOST_REPLY);
      7 in s.tables.users && Redeemers(s.tables, 0) == {7} && 7 !in s.identities && At(s, 7, Ended(Raised))
  {
    ReplyIsLost();
    RunPrefix(7);
    assert LOST_REPLY[..8] == LOST_REPLY;
  }

  const LOGIN_FIRST := LOST_REPLY[..5] + [Login(7), Flush(7), Compensate(7, true)]

  /** It also hits a user whom a login committed after the identity was created: the flush
      then finds the address taken. */
  lemma CompensationCanHitLogin()
    ensures var s := After({}, LOGIN_FIRST);
      7 in s.tables.logins && 7 !in s.tables.users && 7 !in s.identities && At(s, 7, Ended(Raised))
  {
    IdentityIsCreated();
    var a := LOST_REPLY[..5];
    var s := After({}, a);
    RunSnoc(Alone({}, NO_TABLES, {}), a, Login(7));
    RunSnoc(Alone({}, NO_TABLES, {}), a + [Login(7)], Flush(7));
    RunSnoc(Alone({}, NO_TABLES, {}), a + [Login(7)] + [Flush(7)], Compensate(7, true));
    assert LOGIN_FIRST == a + [Login(7)] + [Flush(7)] + [Compensate(7, true)];
    LoginIsHit(s);
  }

  lemma LoginIsHit(s: System)
    requires s == Holding(AtFlush, {7}, map[])
    ensures var t := Step(Step(Step(s, Login(7)), Flush(7)), Compensate(7, true));
      7 in t.tables.logins && 7 !in t.tables.users && 7 !in t.identities && At(t, 7, Ended(Raised))
  {
    var t := Step(s, Login(7));
    assert t.tables.logins == map[7 := User(7, "ann@desk")];
    assert t.tables.logins[7].email == "ann@desk" && HasEmail(t.tables, "ann@desk");
    assert At(Step(t, Flush(7)), 7, AtCompensate);
  }

  // ----- Disabled invitations -----

  predicate Disabled(t: Tables, i: nat) {
    i in t.invitations && t.invitations[i].disabledAt.Some?
  }

  lemma StepSparesDisabled(s: System, e: Event, i: nat)
    requires Inv(s) && Disabled(s.tables, i)
    ensures Disabled(Step(s, e).tables, i)
    ensures Redeemers(Step(s, e).tables, i) == Redeemers(s.tables, i)
  {
    StepTables(s, e);
    SparesDisabled(s, e, Step(s, e), i);
  }

  lemma SparesDisabled(s: System, e: Event, t: System, i: nat)
    requires TablesEffect(s, e, t) && Disabled(s.tables, i)
    requires s.tables.users.Keys == s.tables.redemptions.Keys
    requires Commits(s, e) ==> CallInv(s, e.c)
    ensures Disabled(t.tables, i) && Redeemers(t.tables, i) == Redeemers(s.tables, i)
  {
    if Commits(s, e) {
      assert s.calls[e.c].invitation != Some(i);
      assert e.c !in s.tables.redemptions;
    }
  }

  lemma StepDisables(s: System, i: nat, now: int)
    requires Enabled(s, Disable(i, now))
    ensures Disabled(Step(s, Disable(i, now)).tables, i)
    ensures !Disabled(s.tables, i) ==> Step(s, Disable(i, now)).tables.invitations[i].disabledAt == Some(now)
  {
  }

  /** An invitation that an administrator disabled in a run is disabled at its end. */
  lemma {:induction false} DisablingDisables(admins: set<string>, es: seq<Event>, i: nat, now: int)
    requires Happened(admins, es, Disable(i, now))
    ensures Disabled(After(admins, es).tables, i)
    decreases |es|
  {
    var before, last := es[..|es| - 1], es[|es| - 1];
    assert es == before + [last];
    HappenedSnoc(admins, before, last, Disable(i, now));
    RunKeepsInv(admins, before);
    if Happened(admins, before, Disable(i, now)) {
      DisablingDisables(admins, before, i, now);
      StepSparesDisabled(After(admins, before), last, i);
    } else {
      StepDisables(After(admins, before), i, now);
    }
  }

  /** Once disabled, an invitation gains no redemption in any continuation: not even by a
      registration that had begun before. */
  lemma {:induction false} DisabledStaysClosed(admins: set<string>, es: seq<Event>, later: seq<Event>, i: nat)
    requires Disabled(After(admins, es).tables, i)
    ensures Disabled(After(admins, es + later).tables, i)
    ensures Redeemers(After(admins, es + later).tables, i) == Redeemers(After(admins, es).tables, i)
    decreases |later|
  {
    if later == [] {
      assert es + later == es;
    } else {
      var before, last := later[..|later| - 1], later[|later| - 1];
      assert es + later == (es + before) + [last];
      DisabledStaysClosed(admins, es, before, i);
      RunKeepsInv(admins, es + before);
      RunSnoc(Alone(admins, NO_TABLES, {}), es + before, last);
      StepSparesDisabled(After(admins, es + before), last, i);
    }
  }

  // ----- The service: one registration from start to end -----

  datatype CreateAnswer = Created | Refused(created: bool)
  datatype FlushAnswer = Flushed | FlushFailed
  datatype CommitAnswer = Acknowledged | CommitFailed | ReplyLost

  /** What the provider and the database answer during one registration. */
  datatype Answers = Answers(create: CreateAnswer, flush: FlushAnswer, commit: CommitAnswer, deleted: bool)

  /** The events of a registration that nobody interrupts; those it does not reach are not
      enabled. */
  function Script(c: nat, email: string, invitation: Option<nat>, now: int, a: Answers): seq<Event> {
    [Begin(c, email, invitation), Lock(c, now), CheckEmail(c),
     if a.create.Created? then CreateIdentity(c) else CreateIdentityFails(c, a.create.created),
     if a.flush.Flushed? then Flush(c) else Fail(c),
     if a.commit.CommitFailed? then Fail(c) else Commit(c, a.commit.Acknowledged?),
     Compensate(c, a.deleted)]
  }

  /** One registration: the state it starts from, its arguments and the answers it gets. */
  datatype Job = Job(admins: set<string>, tables: Tables, identities: set<nat>,
                     c: nat, email: string, invitation: Option<nat>, now: int, answers: Answers)
  {
    function Events(): seq<Event> { Script(c, email, invitation, now, answers) }

    function State(k: nat): System
      requires k <= 7
    {
      Run(Alone(admins, tables, identities), Events()[..k])
    }

    predicate AtInvitation() {
      invitation.Some? && invitation.value in tables.invitations
      && Available(tables.invitations[invitation.value], now)
    }
  }

  /** The machine runs the script to the end with this outcome. */
  predicate Ends(j: Job, outcome: Outcome, tables: Tables, identities: set<nat>) {
    var s := j.State(7);
    s.tables == tables && s.identities == identities && At(s, j.c, Ended(outcome))
  }

  /** After `k` events the registration, the only call, has come to `pc`. */
  predicate Reached(j: Job, k: nat, pc: Pc, tables: Tables, identities: set<nat>)
    requires k <= 7
  {
    j.State(k) == System(j.admins, tables, identities, map[j.c := Call(j.email, j.invitation, pc)],
                         if pc in {AtEmailCheck, AtCreate, AtFlush, AtCommit} && j.invitation.Some?
                         then map[j.invitation.value := j.c] else map[],
                         if pc == AtCommit then map[j.email := j.c] else map[],
                         j.State(k).unacknowledged)
  }

  lemma JobStep(j: Job, k: nat)
    requires k < 7
    ensures j.State(k + 1) == Step(j.State(k), j.Events()[k])
  {
    ScriptStep(Alone(j.admins, j.tables, j.identities), j.Events(), k);
  }

  /** Events a finished call no longer enables leave the state as it is. */
  lemma {:induction false} EndedStays(j: Job, k: nat, outcome: Outcome, tables: Tables, identities: set<nat>)
    requires k <= 7 && Reached(j, k, Ended(outcome), tables, identities)
    ensures Ends(j, outcome, tables, identities)
    decreases 7 - k
  {
    if k < 7 {
      JobStep(j, k);
      assert IsBy(j.Events()[k], j.c);
      EndedNotEnabled(j.State(k), j.Events()[k], j.c);
      EndedStays(j, k + 1, outcome, tables, identities);
    }
  }

  lemma EndedNotEnabled(s: System, e: Event, c: nat)
    requires c in s.calls && s.calls[c].pc.Ended? && IsBy(e, c)
    ensures Step(s, e) == s
  {
  }

  lemma Begun(j: Job)
    ensures Reached(j, 1, if j.email in j.admins then Ended(Unavailable) else AtLock, j.tables, j.identities)
  {
    JobStep(j, 0);
  }

  lemma Locked(j: Job)
    requires Reached(j, 1, AtLock, j.tables, j.identities)
    ensures Reached(j, 2, if j.AtInvitation() then AtEmailCheck else Ended(Unavailable), j.tables, j.identities)
  {
    JobStep(j, 1);
  }

  lemma Checked(j: Job)
    requires j.invitation.Some? && Reached(j, 2, AtEmailCheck, j.tables, j.identities)
    ensures Reached(j, 3, if HasEmail(j.tables, j.email) then Ended(Unavailable) else AtCreate, j.tables, j.identities)
  {
    JobStep(j, 2);
  }

  lemma Asked(j: Job)
    requires j.invitation.Some? && Reached(j, 3, AtCreate, j.tables, j.identities)
    ensures j.answers.create.Created? ==> Reached(j, 4, AtFlush, j.tables, j.identities + {j.c})
    ensures j.answers.create.Refused? ==>
      Reached(j, 4, Ended(Unavailable), j.tables,
              if j.answers.create.created then j.identities + {j.c} else j.identities)
  {
    JobStep(j, 3);
  }

  lemma Inserted(j: Job, identities: set<nat>)
    requires j.invitation.Some? && !HasEmail(j.tables, j.email) && Reached(j, 4, AtFlush, j.tables, identities)
    ensures Reached(j, 5, if j.answers.flush.Flushed? then AtCommit else AtCompensate, j.tables, identities)
  {
    JobStep(j, 4);
  }

  lemma Failed(j: Job, identities: set<nat>)
    requires j.answers.commit.CommitFailed? && Reached(j, 5, AtCommit, j.tables, identities)
    ensures Reached(j, 6, AtCompensate, j.tables, identities)
  {
    JobStep(j, 5);
  }

  lemma Answered(j: Job, identities: set<nat>)
    requires j.AtInvitation() && !j.answers.commit.CommitFailed? && Reached(j, 5, AtCommit, j.tables, identities)
    ensures Reached(j, 6, if j.answers.commit.Acknowledged? then Ended(Registered) else AtCompensate,
                    Written(j.tables, j.c, j.email, j.invitation.value), identities)
  {
    JobStep(j, 5);
    CommitStep(j.State(5), j.c, j.answers.commit.Acknowledged?);
  }

  lemma CommitStep(s: System, c: nat, acknowledged: bool)
    requires At(s, c, AtCommit) && s.calls[c].invitation.Some? && s.calls[c].invitation.value in s.tables.invitations
    requires s.locks.Values <= {c} && s.emails.Values <= {c}
    ensures var t := Step(s, Commit(c, acknowledged)); var call := s.calls[c];
      && t.calls == s.calls[c := call.(pc := if acknowledged then Ended(Registered) else AtCompensate)]
      && t.tables == Written(s.tables, c, call.email, call.invitation.value)
      && t.locks == map[] && t.emails == map[] && t.identities == s.identities && t.admins == s.admins
  {
    ReleaseAll(s, c);
  }

  lemma ReleaseAll(s: System, c: nat)
    requires s.locks.Values <= {c} && s.emails.Values <= {c}
    ensures Release(s, c).locks == map[] && Release(s, c).emails == map[]
  {
    forall i | i in s.locks ensures s.locks[i] == c { assert s.locks[i] in s.locks.Values; }
    forall m | m in s.emails ensures s.emails[m] == c { assert s.emails[m] in s.emails.Values; }
  }

  lemma Waited(j: Job, identities: set<nat>)
    requires Reached(j, 5, AtCompensate, j.tables, identities)
    ensures Reached(j, 6, AtCompensate, j.tables, identities)
  {
    JobStep(j, 5);
  }

  lemma Compensated(j: Job, tables: Tables, identities: set<nat>)
    requires Reached(j, 6, AtCompensate, tables, identities)
    ensures Reached(j, 7, Ended(Raised), tables, if j.answers.deleted then identities - {j.c} else identities)
  {
    JobStep(j, 6);
  }

  /** How the script ends, by the checks and answers in their order. */
  lemma ScriptEnds(j: Job)
    ensures j.email in j.admins || !j.AtInvitation() || HasEmail(j.tables, j.email) ==>
      Ends(j, Unavailable, j.tables, j.identities)
    ensures j.email !in j.admins && j.AtInvitation() && !HasEmail(j.tables, j.email) ==>
      EndsAfterChecks(j)
  {
    Begun(j);
    if j.email in j.admins {
      EndedStays(j, 1, Unavailable, j.tables, j.identities);
    } else {
      Locked(j);
      if !j.AtInvitation() {
        EndedStays(j, 2, Unavailable, j.tables, j.identities);
      } else {
        Checked(j);
        if HasEmail(j.tables, j.email) {
          EndedStays(j, 3, Unavailable, j.tables, j.identities);
        } else {
          EndsWithIdentity(j);
        }
      }
    }
  }

  ghost predicate EndsAfterChecks(j: Job) {
    var a, with := j.answers, j.identities + {j.c};
    if a.create.Refused? then Ends(j, Unavailable, j.tables, if a.create.created then with else j.identities)
    else if a.flush.Flushed? && a.commit.Acknowledged? then
      j.invitation.Some? && j.invitation.value in j.tables.invitations
      && Ends(j, Registered, Written(j.tables, j.c, j.email, j.invitation.value), with)
    else if a.flush.Flushed? && a.commit.ReplyLost? then
      j.invitation.Some? && j.invitation.value in j.tables.invitations
      && Ends(j, Raised, Written(j.tables, j.c, j.email, j.invitation.value), if a.deleted then with - {j.c} else with)
    else Ends(j, Raised, j.tables, if a.deleted then with - {j.c} else with)
  }

  lemma EndsWithIdentity(j: Job)
    requires j.AtInvitation() && !HasEmail(j.tables, j.email) && Reached(j, 3, AtCreate, j.tables, j.identities)
    ensures EndsAfterChecks(j)
  {
    var a, with := j.answers, j.identities + {j.c};
    Asked(j);
    if a.create.Refused? {
      EndedStays(j, 4, Unavailable, j.tables, if a.create.created then with else j.identities);
    } else {
      Inserted(j, with);
      if a.flush.FlushFailed? { Waited(j, with); }
      else if a.commit.CommitFailed? { Failed(j, with); }
      else { Answered(j, with); }
      if a.flush.Flushed? && !a.commit.CommitFailed? {
        var written := Written(j.tables, j.c, j.email, j.invitation.value);
        if a.commit.Acknowledged? {
          EndedStays(j, 6, Registered, written, with);
        } else {
          EndsCompensated(j, written, with);
        }
      } else {
        EndsCompensated(j, j.tables, with);
      }
    }
  }

  lemma EndsCompensated(j: Job, tables: Tables, identities: set<nat>)
    requires Reached(j, 6, AtCompensate, tables, identities)
    ensures Ends(j, Raised, tables, if j.answers.deleted then identities - {j.c} else identities)
  {
    Compensated(j, tables, identities);
    EndedStays(j, 7, Raised, tables, if j.answers.deleted then identities - {j.c} else identities);
  }

  class RegistrationService {
    const admins: set<string>
    var tables: Tables
    var identities: set<nat>

    constructor (admins: set<string>)
      ensures this.admins == admins && tables == NO_TABLES && identities == {}
    {
      this.admins := admins;
      tables, identities := NO_TABLES, {};
    }

    /** `c` is the id the call draws and `invitation` the row its code matches. */
    method Register(c: nat, email: string, invitation: Option<nat>, now: int, a: Answers)
        returns (outcome: Outcome)
      requires c !in tables.users && c !in identities
      modifies this
      ensures Ends(Job(admins, old(tables), old(identities), c, email, invitation, now, a), outcome, tables, identities)
      ensures outcome == Registered ==>
        && invitation.Some? && invitation.value in old(tables).invitations
        && tables == Written(old(tables), c, email, invitation.value) && identities == old(identities) + {c}
      ensures outcome == Unavailable ==> tables == old(tables)
      ensures outcome == Raised && !a.commit.ReplyLost? ==> tables == old(tables)
      ensures outcome == Raised && a.deleted ==> identities == old(identities)
      ensures outcome in {Registered, Unavailable, Raised}
      ensures outcome == Registered <==>
        && email !in admins && invitation.Some? && invitation.value in old(tables).invitations
        && old(tables).invitations[invitation.value].disabledAt.None?
        && (old(tables).invitations[invitation.value].expiresAt.None?
            || now < old(tables).invitations[invitation.value].expiresAt.value)
        && old(tables).invitations[invitation.value].useCount < old(tables).invitations[invitation.value].maxUses
        && (forall u | u in old(tables).users :: old(tables).users[u].email != email)
        && (forall u | u in old(tables).logins :: old(tables).logins[u].email != email)
        && a.create.Created? && a.flush.Flushed? && a.commit.Acknowledged?
    {
      ScriptEnds(Job(admins, tables, identities, c, email, invitation, now, a));
      if email in admins {
        return Unavailable;
      }
      if invitation.None? || invitation.value !in tables.invitations
         || !Available(tables.invitations[invitation.value], now) {
        return Unavailable;
      }
      if HasEmail(tables, email) {
        return Unavailable;
      }
      if a.create.Refused? {
        if a.create.created { identities := identities + {c}; }
        return Unavailable;
      }
      identities := identities + {c};
      if a.flush.Flushed? && !a.commit.CommitFailed? {
        tables := Written(tables, c, email, invitation.value);
        if a.commit.Acknowledged? {
          return Registered;
        }
      }
      if a.deleted { identities := identities - {c}; }
      return Raised;
    }
  }
}
