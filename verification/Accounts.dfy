/** auth-service's accounts: password registration and Google sign-in. */
module Accounts {
  // Each store call is its own atomic step, may fail, or may take effect with its reply lost. The
  // tables' unique and foreign keys are those of the migrations.

  import opened Prelude

  datatype Credential = Credential(id: string, email: string, role: string)

  datatype Identity = Identity(user: string, subject: string, email: string)

  datatype Tables = Tables(credentials: seq<Credential>, identities: seq<Identity>)

  // ---- the store ----

  function ByEmail(creds: seq<Credential>, email: string): Option<Credential> {
    if creds == [] then None
    else if creds[|creds| - 1].email == email then Some(creds[|creds| - 1])
    else ByEmail(creds[..|creds| - 1], email)
  }

  function ById(creds: seq<Credential>, id: string): Option<Credential> {
    if creds == [] then None
    else if creds[|creds| - 1].id == id then Some(creds[|creds| - 1])
    else ById(creds[..|creds| - 1], id)
  }

  function BySubject(idents: seq<Identity>, subject: string): Option<Identity> {
    if idents == [] then None
    else if idents[|idents| - 1].subject == subject then Some(idents[|idents| - 1])
    else BySubject(idents[..|idents| - 1], subject)
  }

  predicate CanCreateCredential(t: Tables, c: Credential) {
    ByEmail(t.credentials, c.email).None? && ById(t.credentials, c.id).None?
  }

  predicate CanCreateIdentity(t: Tables, i: Identity) {
    BySubject(t.identities, i.subject).None? && ById(t.credentials, i.user).Some?
  }

  function WithCredential(t: Tables, c: Credential, fault: Fault): Tables {
    if fault.Refuse? || !CanCreateCredential(t, c) then t else t.(credentials := t.credentials + [c])
  }

  function WithIdentity(t: Tables, i: Identity, fault: Fault): Tables {
    if fault.Refuse? || !CanCreateIdentity(t, i) then t else t.(identities := t.identities + [i])
  }

  /** The unique keys and the foreign key: what is free, and that a lost reply loses only the reply. */
  lemma CreatesAreKeyed(t: Tables, c: Credential, i: Identity, fault: Fault)
    ensures WithCredential(t, c, fault)
      == if !fault.Refuse? && IsFree(t.credentials, c.id, c.email) then t.(credentials := t.credentials + [c]) else t
    ensures WithIdentity(t, i, fault)
      == if !fault.Refuse? && (forall k :: 0 <= k < |t.identities| ==> t.identities[k].subject != i.subject)
           && (exists k :: 0 <= k < |t.credentials| && t.credentials[k].id == i.user)
         then t.(identities := t.identities + [i])
         else t
  {
    ByEmailMeans(t.credentials, c.email);
    ByIdMeans(t.credentials, c.id);
    ByIdMeans(t.credentials, i.user);
    BySubjectMeans(t.identities, i.subject);
  }

  /** No account has the id or the email. */
  predicate IsFree(creds: seq<Credential>, id: string, email: string) {
    forall k :: 0 <= k < |creds| ==> creds[k].id != id && creds[k].email != email
  }

  function WithRole(creds: seq<Credential>, id: string, role: string): seq<Credential> {
    seq(|creds|, i requires 0 <= i < |creds| => if creds[i].id == id then creds[i].(role := role) else creds[i])
  }

  // ---- the tables stay consistent ----

  predicate IsOwner(creds: seq<Credential>, id: string, email: string) {
    exists k :: 0 <= k < |creds| && creds[k].id == id && creds[k].email == email
  }

  /** One account per email and per id, one identity per subject, each linked to the account of its own email. */
  ghost predicate Consistent(t: Tables) {
    && (forall i, j :: 0 <= i < j < |t.credentials| ==>
          t.credentials[i].email != t.credentials[j].email && t.credentials[i].id != t.credentials[j].id)
    && (forall i, j :: 0 <= i < j < |t.identities| ==> t.identities[i].subject != t.identities[j].subject)
    && (forall i :: 0 <= i < |t.identities| ==> IsOwner(t.credentials, t.identities[i].user, t.identities[i].email))
  }

  lemma {:induction false} ByEmailMeans(creds: seq<Credential>, email: string)
    ensures match ByEmail(creds, email)
      case Some(c) => c in creds && c.email == email && IsOwner(creds, c.id, email)
      case None => forall k :: 0 <= k < |creds| ==> creds[k].email != email
  {
    if creds != [] {
      var n := |creds| - 1;
      ByEmailMeans(creds[..n], email);
      assert creds[n].email == email ==> IsOwner(creds, creds[n].id, email);
      if ByEmail(creds[..n], email).Some? {
        OwnersStay(creds[..n], creds[n..], ByEmail(creds[..n], email).value.id, email);
        assert creds == creds[..n] + creds[n..];
      }
    }
  }

  lemma {:induction false} ByIdMeans(creds: seq<Credential>, id: string)
    ensures match ById(creds, id)
      case Some(c) => c in creds && c.id == id
      case None => forall k :: 0 <= k < |creds| ==> creds[k].id != id
  {
    if creds != [] {
      ByIdMeans(creds[..|creds| - 1], id);
    }
  }

  lemma {:induction false} BySubjectMeans(idents: seq<Identity>, subject: string)
    ensures match BySubject(idents, subject)
      case Some(i) => i in idents && i.subject == subject
      case None => forall k :: 0 <= k < |idents| ==> idents[k].subject != subject
  {
    if idents != [] {
      BySubjectMeans(idents[..|idents| - 1], subject);
    }
  }

  lemma OwnersStay(creds: seq<Credential>, more: seq<Credential>, id: string, email: string)
    requires IsOwner(creds, id, email)
    ensures IsOwner(creds + more, id, email)
  {
    var k :| 0 <= k < |creds| && creds[k].id == id && creds[k].email == email;
    assert (creds + more)[k] == creds[k];
  }

  lemma OwnersKeepTheirRoleChange(creds: seq<Credential>, user: string, role: string, id: string, email: string)
    ensures IsOwner(WithRole(creds, user, role), id, email) <==> IsOwner(creds, id, email)
  {
    var creds' := WithRole(creds, user, role);
    if IsOwner(creds, id, email) {
      var k :| 0 <= k < |creds| && creds[k].id == id && creds[k].email == email;
      assert creds'[k].id == id && creds'[k].email == email;
    }
    if IsOwner(creds', id, email) {
      var k :| 0 <= k < |creds'| && creds'[k].id == id && creds'[k].email == email;
      assert creds[k].id == id && creds[k].email == email;
    }
  }

  /** The account of an email is unique. */
  lemma OneOwner(t: Tables, id: string, other: string, email: string)
    requires Consistent(t) && IsOwner(t.credentials, id, email)
    ensures IsOwner(t.credentials, other, email) <==> other == id
    ensures ByEmail(t.credentials, email).Some? && ByEmail(t.credentials, email).value.id == id
  {
    ByEmailMeans(t.credentials, email);
  }

  lemma CredentialKeepsConsistent(t: Tables, c: Credential, fault: Fault)
    requires Consistent(t)
    ensures Consistent(WithCredential(t, c, fault))
  {
    ByEmailMeans(t.credentials, c.email);
    ByIdMeans(t.credentials, c.id);
    forall i | 0 <= i < |t.identities|
      ensures IsOwner(WithCredential(t, c, fault).credentials, t.identities[i].user, t.identities[i].email)
    {
      OwnersStay(t.credentials, [c], t.identities[i].user, t.identities[i].email);
    }
  }

  lemma IdentityKeepsConsistent(t: Tables, i: Identity, fault: Fault)
    requires Consistent(t) && IsOwner(t.credentials, i.user, i.email)
    ensures Consistent(WithIdentity(t, i, fault))
  {
    BySubjectMeans(t.identities, i.subject);
  }

  // ---- any interleaving ----

  datatype Phase =
    | Starting
    | Known(user: string)                 // findIdentity found the subject's row
    | Unlinked                            // it found none
    | NoCredential                        // and no account has the email
    | Found(user: string, role: string, roleAt: nat)   // the account to link, found or just created

  /** A sign-in in progress, with the step it began at. */
  datatype Call = Call(subject: string, email: string, start: nat, phase: Phase)

  /**
   * A finished sign-in: whether the subject was known, the step it began at, and the position in
   * the run at which the tables showed the role it answers.
   */
  datatype Answer =
    Answer(subject: string, email: string, user: string, role: string, known: bool, start: nat, roleAt: nat)

  datatype State = State(step: nat, tables: Tables, calls: map<nat, Call>, answers: seq<Answer>)

  datatype Action =
    | Register(id: string, email: string, fault: Fault)
    | Promote(id: string, role: string)
    | Begin(c: nat, subject: string, email: string)
    | FindIdentity(c: nat)
    | FindRole(c: nat)
    | FindCredential(c: nat)
    | CreateCredential(c: nat, id: string, fault: Fault)
    | CreateIdentity(c: nat, fault: Fault)
    | Fail(c: nat)                        // a lookup fails, or the caller goes away

  function Init(): State {
    State(0, Tables([], []), map[], [])
  }

  const ROLE_USER: string := "user"

  function RoleFor(creds: seq<Credential>, email: string): string {
    match ByEmail(creds, email)
    case Some(c) => c.role
    case None => ROLE_USER
  }

  function Moved(s: State, c: nat, phase: Phase): State
    requires c in s.calls
  {
    s.(calls := s.calls[c := s.calls[c].(phase := phase)])
  }

  function Ended(s: State, c: nat): State {
    s.(calls := s.calls - {c})
  }

  function Answered(s: State, c: nat, user: string, role: string, known: bool, roleAt: nat): State
    requires c in s.calls
  {
    var call := s.calls[c];
    Ended(s, c).(answers := s.answers + [Answer(call.subject, call.email, user, role, known, call.start, roleAt)])
  }

  function AfterLookup(s: State, c: nat, a: Action): State
    requires c in s.calls
  {
    var call := s.calls[c];
    match (a, call.phase)
    case (FindIdentity(_), Starting) =>
      (match BySubject(s.tables.identities, call.subject)
       case Some(i) => Moved(s, c, Known(i.user))
       case None => Moved(s, c, Unlinked))
    case (FindRole(_), Known(user)) =>
      Answered(s, c, user, RoleFor(s.tables.credentials, call.email), true, s.step)
    case (FindCredential(_), Unlinked) =>
      (match ByEmail(s.tables.credentials, call.email)
       case Some(cred) => Moved(s, c, Found(cred.id, cred.role, s.step))
       case None => Moved(s, c, NoCredential))
    case _ => s
  }

  function AfterCreateCredential(s: State, c: nat, id: string, fault: Fault): State {
    if c in s.calls && s.calls[c].phase.NoCredential? then
      var cred := Credential(id, s.calls[c].email, ROLE_USER);
      var s' := s.(tables := WithCredential(s.tables, cred, fault));
      if fault.NoFault? && CanCreateCredential(s.tables, cred) then Moved(s', c, Found(id, ROLE_USER, s.step + 1))
      else Ended(s', c)
    else s
  }

  function AfterCreateIdentity(s: State, c: nat, fault: Fault): State {
    if c in s.calls && s.calls[c].phase.Found? then
      var call := s.calls[c];
      var ident := Identity(call.phase.user, call.subject, call.email);
      var s' := s.(tables := WithIdentity(s.tables, ident, fault));
      if fault.NoFault? && CanCreateIdentity(s.tables, ident) then
        Answered(s', c, call.phase.user, call.phase.role, false, call.phase.roleAt)
      else Ended(s', c)
    else s
  }

  function Effect(s: State, a: Action): State {
    match a
    case Register(id, email, fault) => s.(tables := WithCredential(s.tables, Credential(id, email, ROLE_USER), fault))
    case Promote(id, role) => s.(tables := s.tables.(credentials := WithRole(s.tables.credentials, id, role)))
    case Begin(c, subject, email) =>
      if c in s.calls then s else s.(calls := s.calls[c := Call(subject, email, s.step, Starting)])
    case CreateCredential(c, id, fault) => AfterCreateCredential(s, c, id, fault)
    case CreateIdentity(c, fault) => AfterCreateIdentity(s, c, fault)
    case Fail(c) => Ended(s, c)
    case _ => if a.c in s.calls then AfterLookup(s, a.c, a) else s
  }

  /** Every action takes one step; one that is not enabled changes nothing else. */
  function Step(s: State, a: Action): State {
    Effect(s, a).(step := s.step + 1)
  }

  function RunFrom(s: State, actions: seq<Action>): State {
    if actions == [] then s else Step(RunFrom(s, actions[..|actions| - 1]), actions[|actions| - 1])
  }

  function Run(actions: seq<Action>): State {
    RunFrom(Init(), actions)
  }

  predicate Linked(t: Tables, subject: string, user: string) {
    BySubject(t.identities, subject).Some? && BySubject(t.identities, subject).value.user == user
  }

  /** What a call remembers is in the tables. */
  predicate CallOk(t: Tables, call: Call) {
    && (call.phase.Known? ==> Linked(t, call.subject, call.phase.user))
    && (call.phase.Found? ==> IsOwner(t.credentials, call.phase.user, call.email))
  }

  ghost predicate Sound(s: State) {
    && Consistent(s.tables)
    && (forall c :: c in s.calls ==> CallOk(s.tables, s.calls[c]))
    && (forall i :: 0 <= i < |s.answers| ==> Linked(s.tables, s.answers[i].subject, s.answers[i].user))
  }

  /** Accounts and links are never taken back. */
  ghost predicate Keeps(t: Tables, t': Tables) {
    && (forall id, email :: IsOwner(t.credentials, id, email) ==> IsOwner(t'.credentials, id, email))
    && (forall subject, user :: Linked(t, subject, user) ==> Linked(t', subject, user))
  }

  lemma LinksStay(idents: seq<Identity>, i: Identity, subject: string)
    requires BySubject(idents, i.subject).None?
    ensures BySubject(idents + [i], subject) == if subject == i.subject then Some(i) else BySubject(idents, subject)
  {
    assert (idents + [i])[..|idents|] == idents;
  }

  lemma CredentialKeeps(t: Tables, c: Credential, fault: Fault)
    ensures Keeps(t, WithCredential(t, c, fault))
  {
    forall id, email | IsOwner(t.credentials, id, email)
      ensures IsOwner(WithCredential(t, c, fault).credentials, id, email)
    {
      OwnersStay(t.credentials, [c], id, email);
    }
  }

  lemma IdentityKeeps(t: Tables, i: Identity, fault: Fault)
    ensures Keeps(t, WithIdentity(t, i, fault))
  {
    forall subject, user | Linked(t, subject, user) ensures Linked(WithIdentity(t, i, fault), subject, user) {
      if CanCreateIdentity(t, i) {
        LinksStay(t.identities, i, subject);
      }
    }
  }

  lemma PromoteKeeps(t: Tables, id: string, role: string)
    requires Consistent(t)
    ensures var t' := t.(credentials := WithRole(t.credentials, id, role)); Keeps(t, t') && Consistent(t')
  {
    forall user, email
      ensures IsOwner(WithRole(t.credentials, id, role), user, email) <==> IsOwner(t.credentials, user, email)
    {
      OwnersKeepTheirRoleChange(t.credentials, id, role, user, email);
    }
  }

  /** A step is sound if its tables are, and its new calls and answers are. */
  lemma SoundWhenNewIs(s: State, s': State)
    requires Sound(s) && Consistent(s'.tables) && Keeps(s.tables, s'.tables)
    requires forall c :: c in s'.calls ==> (c in s.calls && s'.calls[c] == s.calls[c]) || CallOk(s'.tables, s'.calls[c])
    requires s.answers <= s'.answers
    requires forall i :: |s.answers| <= i < |s'.answers| ==>
      Linked(s'.tables, s'.answers[i].subject, s'.answers[i].user)
    ensures Sound(s')
  {
    forall c | c in s'.calls ensures CallOk(s'.tables, s'.calls[c]) {
      if c in s.calls && s'.calls[c] == s.calls[c] {
        assert CallOk(s.tables, s.calls[c]);
      }
    }
  }

  lemma LookupKeepsSound(s: State, c: nat, a: Action)
    requires Sound(s) && c in s.calls
    ensures Sound(AfterLookup(s, c, a)) && AfterLookup(s, c, a).tables == s.tables
  {
    ByEmailMeans(s.tables.credentials, s.calls[c].email);
    assert CallOk(s.tables, s.calls[c]);
    SoundWhenNewIs(s, AfterLookup(s, c, a));
  }

  lemma CreateCredentialKeepsSound(s: State, c: nat, id: string, fault: Fault)
    requires Sound(s)
    ensures Sound(AfterCreateCredential(s, c, id, fault))
      && Keeps(s.tables, AfterCreateCredential(s, c, id, fault).tables)
  {
    if c in s.calls && s.calls[c].phase.NoCredential? {
      var cred := Credential(id, s.calls[c].email, ROLE_USER);
      var s' := AfterCreateCredential(s, c, id, fault);
      CredentialKeepsConsistent(s.tables, cred, fault);
      CredentialKeeps(s.tables, cred, fault);
      if c in s'.calls {
        assert s'.tables.credentials[|s.tables.credentials|] == cred;
        assert IsOwner(s'.tables.credentials, id, cred.email);
      }
      SoundWhenNewIs(s, s');
    }
  }

  lemma CreateIdentityKeepsSound(s: State, c: nat, fault: Fault)
    requires Sound(s)
    ensures Sound(AfterCreateIdentity(s, c, fault)) && Keeps(s.tables, AfterCreateIdentity(s, c, fault).tables)
  {
    if c in s.calls && s.calls[c].phase.Found? {
      var call := s.calls[c];
      var ident := Identity(call.phase.user, call.subject, call.email);
      assert CallOk(s.tables, call);
      IdentityKeepsConsistent(s.tables, ident, fault);
      IdentityKeeps(s.tables, ident, fault);
      if CanCreateIdentity(s.tables, ident) {
        LinksStay(s.tables.identities, ident, call.subject);
      }
      SoundWhenNewIs(s, AfterCreateIdentity(s, c, fault));
    }
  }

  lemma EffectKeepsSound(s: State, a: Action)
    requires Sound(s)
    ensures Sound(Effect(s, a)) && Keeps(s.tables, Effect(s, a).tables)
  {
    match a
    case Register(id, email, fault) =>
      CredentialKeepsConsistent(s.tables, Credential(id, email, ROLE_USER), fault);
      CredentialKeeps(s.tables, Credential(id, email, ROLE_USER), fault);
      SoundWhenNewIs(s, Effect(s, a));
    case Promote(id, role) =>
      PromoteKeeps(s.tables, id, role);
      SoundWhenNewIs(s, Effect(s, a));
    case CreateCredential(c, id, fault) => CreateCredentialKeepsSound(s, c, id, fault);
    case CreateIdentity(c, fault) => CreateIdentityKeepsSound(s, c, fault);
    case Begin(_, _, _) => SoundWhenNewIs(s, Effect(s, a));
    case Fail(_) => SoundWhenNewIs(s, Effect(s, a));
    case _ =>
      if a.c in s.calls {
        LookupKeepsSound(s, a.c, a);
      }
  }

  lemma StepKeepsSound(s: State, a: Action)
    requires Sound(s)
    ensures Sound(Step(s, a)) && Keeps(s.tables, Step(s, a).tables) && Step(s, a).step == s.step + 1
  {
    EffectKeepsSound(s, a);
  }

  lemma {:induction false} RunIsSound(actions: seq<Action>)
    ensures Sound(Run(actions))
  {
    if actions != [] {
      RunIsSound(actions[..|actions| - 1]);
      StepKeepsSound(Run(actions[..|actions| - 1]), actions[|actions| - 1]);
    }
  }

  // ---- what callers see ----

  /**
   * In every run: one account per email, one identity per subject, each linked to the account of
   * the email it was linked with.
   */
  lemma TablesAreConsistent(actions: seq<Action>)
    ensures var t := Run(actions).tables;
      && (forall i, j :: 0 <= i < j < |t.credentials| ==> t.credentials[i].email != t.credentials[j].email)
      && (forall i, j :: 0 <= i < j < |t.identities| ==> t.identities[i].subject != t.identities[j].subject)
      && (forall i :: 0 <= i < |t.identities| ==> IsOwner(t.credentials, t.identities[i].user, t.identities[i].email))
  {
    RunIsSound(actions);
  }

  /** Whatever emails its sign-ins carry, a subject gets one user id, for ever, and that account exists. */
  lemma SubjectsResolveToOneUser(actions: seq<Action>, i: nat, j: nat)
    requires i < |Run(actions).answers| && j < |Run(actions).answers|
    requires Run(actions).answers[i].subject == Run(actions).answers[j].subject
    ensures var s := Run(actions);
      && s.answers[i].user == s.answers[j].user
      && (exists c :: c in s.tables.credentials && c.id == s.answers[i].user)
  {
    RunIsSound(actions);
    var s := Run(actions);
    assert Linked(s.tables, s.answers[i].subject, s.answers[i].user)
      && Linked(s.tables, s.answers[j].subject, s.answers[j].user);
    BySubjectMeans(s.tables.identities, s.answers[i].subject);
    var ident := BySubject(s.tables.identities, s.answers[i].subject).value;
    assert IsOwner(s.tables.credentials, ident.user, ident.email);
  }

  lemma {:induction false} RunKeeps(actions: seq<Action>, j: nat)
    requires j <= |actions|
    ensures Keeps(Run(actions[..j]).tables, Run(actions).tables)
  {
    var n := |actions|;
    if j == n {
      assert actions[..j] == actions;
    } else {
      RunKeeps(actions[..n - 1], j);
      assert actions[..n - 1][..j] == actions[..j];
      RunIsSound(actions[..n - 1]);
      StepKeepsSound(Run(actions[..n - 1]), actions[n - 1]);
    }
  }

  /** Every sign-in of the subject carries this email. */
  predicate SignsInAs(actions: seq<Action>, subject: string, email: string) {
    forall i :: 0 <= i < |actions| && actions[i].Begin? && actions[i].subject == subject ==> actions[i].email == email
  }

  predicate KnownAs(s: State, subject: string, email: string) {
    && (forall c :: c in s.calls && s.calls[c].subject == subject ==> s.calls[c].email == email)
    && (forall i :: 0 <= i < |s.tables.identities| && s.tables.identities[i].subject == subject ==>
          s.tables.identities[i].email == email)
  }

  lemma BeginKeepsKnownAs(s: State, c: nat, sub: string, mail: string, subject: string, email: string)
    requires KnownAs(s, subject, email) && (sub == subject ==> mail == email)
    ensures KnownAs(Step(s, Begin(c, sub, mail)), subject, email)
  {
  }

  lemma CreateKeepsKnownAs(s: State, a: Action, subject: string, email: string)
    requires KnownAs(s, subject, email) && (a.CreateCredential? || a.CreateIdentity?)
    ensures KnownAs(Step(s, a), subject, email)
  {
  }

  lemma OtherStepKeepsKnownAs(s: State, a: Action, subject: string, email: string)
    requires KnownAs(s, subject, email) && !a.Begin? && !a.CreateCredential? && !a.CreateIdentity?
    ensures KnownAs(Step(s, a), subject, email)
  {
  }

  lemma {:induction false} RunKnownAs(actions: seq<Action>, subject: string, email: string)
    requires SignsInAs(actions, subject, email)
    ensures KnownAs(Run(actions), subject, email)
  {
    if actions != [] {
      var n, a := |actions| - 1, actions[|actions| - 1];
      assert forall i :: 0 <= i < n ==> actions[..n][i] == actions[i];
      RunKnownAs(actions[..n], subject, email);
      if a.Begin? {
        BeginKeepsKnownAs(Run(actions[..n]), a.c, a.subject, a.email, subject, email);
      } else if a.CreateCredential? || a.CreateIdentity? {
        CreateKeepsKnownAs(Run(actions[..n]), a, subject, email);
      } else {
        OtherStepKeepsKnownAs(Run(actions[..n]), a, subject, email);
      }
    }
  }

  /** The email the subject was linked with. */
  function LinkedEmail(t: Tables, subject: string): Option<string> {
    match BySubject(t.identities, subject)
    case Some(i) => Some(i.email)
    case None => None
  }

  lemma OneEmail(t: Tables, id: string, email: string, other: string)
    requires Consistent(t) && IsOwner(t.credentials, id, email) && IsOwner(t.credentials, id, other)
    ensures email == other
  {
  }

  /**
   * Whatever happens before, in between and concurrently, sign-ins with other emails included: an
   * answer is the account that an email had at j if and only if its subject was linked with that email.
   */
  lemma AnswersLandOnTheLinkedEmailsAccountExactly(actions: seq<Action>, j: nat, email: string, id: string, k: nat)
    requires j <= |actions| && IsOwner(Run(actions[..j]).tables.credentials, id, email)
    requires k < |Run(actions).answers|
    ensures var s := Run(actions);
      s.answers[k].user == id <==> LinkedEmail(s.tables, s.answers[k].subject) == Some(email)
  {
    var s := Run(actions);
    RunIsSound(actions);
    RunKeeps(actions, j);
    var subject, user := s.answers[k].subject, s.answers[k].user;
    assert Linked(s.tables, subject, user);
    BySubjectMeans(s.tables.identities, subject);
    var linked := BySubject(s.tables.identities, subject).value;
    if user == id {
      OneEmail(s.tables, id, email, linked.email);
    }
    if linked.email == email {
      OneOwner(s.tables, id, user, email);
    }
  }

  lemma LinkedAsKnown(s: State, subject: string, email: string)
    requires KnownAs(s, subject, email)
    ensures LinkedEmail(s.tables, subject).Some? ==> LinkedEmail(s.tables, subject).value == email
  {
    BySubjectMeans(s.tables.identities, subject);
  }

  /**
   * A sign-in that failed after creating an account leaves it behind. If all of a subject's sign-ins
   * carry one email, a retry that succeeds lands on the account that email had at any time before.
   */
  lemma RetriesLandOnTheSameAccount(
      actions: seq<Action>, j: nat, subject: string, email: string, id: string, k: nat)
    requires j <= |actions| && IsOwner(Run(actions[..j]).tables.credentials, id, email)
    requires SignsInAs(actions, subject, email)
    requires k < |Run(actions).answers| && Run(actions).answers[k].subject == subject
    ensures Run(actions).answers[k].user == id
  {
    RunIsSound(actions);
    RunKnownAs(actions, subject, email);
    LinkedAsKnown(Run(actions), subject, email);
    assert Linked(Run(actions).tables, subject, Run(actions).answers[k].user);
    AnswersLandOnTheLinkedEmailsAccountExactly(actions, j, email, id, k);
  }
}
