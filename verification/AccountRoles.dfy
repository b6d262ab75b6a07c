/**
 * Which role a sign-in answers. For a known subject the code looks the role up by the email Google
 * reports now, which need not be the linked account's any more.
 */
module AccountRoles {
  import opened Prelude
  import opened Accounts

  // ---- the role a known subject is signed in with ----

  lemma {:induction false} ByEmailWithRole(creds: seq<Credential>, user: string, role: string, email: string)
    ensures ByEmail(WithRole(creds, user, role), email)
         == match ByEmail(creds, email)
            case Some(c) => Some(if c.id == user then c.(role := role) else c)
            case None => None
  {
    if creds != [] {
      var n := |creds| - 1;
      ByEmailWithRole(creds[..n], user, role, email);
      assert WithRole(creds, user, role)[..n] == WithRole(creds[..n], user, role);
    }
  }

  /**
   * The role is looked up by the email Google reports now. It is the account's own role, whatever
   * that is, exactly as long as that email is still the account's.
   */
  lemma RoleFollowsAccountExactlyWhileEmailDoes(t: Tables, user: string, email: string)
    requires Consistent(t)
    ensures (forall role :: RoleFor(WithRole(t.credentials, user, role), email) == role)
      <==> IsOwner(t.credentials, user, email)
  {
    forall role ensures
      RoleFor(WithRole(t.credentials, user, role), email)
      == (if IsOwner(t.credentials, user, email) then role else RoleFor(t.credentials, email))
    {
      ByEmailWithRole(t.credentials, user, role, email);
      ByEmailMeans(t.credentials, email);
      if IsOwner(t.credentials, user, email) {
        OneOwner(t, user, user, email);
      }
    }
    var other := if RoleFor(t.credentials, email) == "" then ROLE_USER else "";
    assert RoleFor(WithRole(t.credentials, user, other), email) == other ==> IsOwner(t.credentials, user, email);
  }

  /** The tables before the action at position j of the run. */
  function TablesAt(actions: seq<Action>, j: nat): Tables
    requires j <= |actions|
  {
    Run(actions[..j]).tables
  }

  /** The tables at every position of the run, its end included. */
  function Trace(actions: seq<Action>): seq<Tables> {
    seq(|actions| + 1, j requires 0 <= j <= |actions| => TablesAt(actions, j))
  }

  /** A call that is about to link an account read that account's own role, at a position since it began. */
  predicate CallRoleRead(trace: seq<Tables>, call: Call) {
    call.phase.Found? ==>
      call.start < call.phase.roleAt < |trace|
        && OwnRole(trace[call.phase.roleAt], call.phase.user, call.email, call.phase.role)
  }

  /** The account of this id and email has this role. */
  predicate OwnRole(t: Tables, user: string, email: string, role: string) {
    Credential(user, email, role) in t.credentials
  }

  predicate AnswerRoleRead(trace: seq<Tables>, a: Answer) {
    && a.start < a.roleAt < |trace|
    && (if a.known then
          Linked(trace[a.roleAt], a.subject, a.user) && a.role == RoleFor(trace[a.roleAt].credentials, a.email)
        else OwnRole(trace[a.roleAt], a.user, a.email, a.role))
  }

  predicate Traced(s: State, trace: seq<Tables>) {
    && |trace| == s.step + 1 && trace[s.step] == s.tables
    && (forall c :: c in s.calls ==> s.calls[c].start < s.step && CallRoleRead(trace, s.calls[c]))
    && (forall i :: 0 <= i < |s.answers| ==> AnswerRoleRead(trace, s.answers[i]))
  }

  /** A step is traced if its new calls and answers are. */
  lemma TracedWhenNewIs(s: State, s': State, trace: seq<Tables>)
    requires Traced(s, trace) && s'.step == s.step + 1 && s.answers <= s'.answers
    requires var trace' := trace + [s'.tables];
      && (forall c :: c in s'.calls ==>
            || (c in s.calls && s'.calls[c] == s.calls[c])
            || (s'.calls[c].start < s'.step && CallRoleRead(trace', s'.calls[c])))
      && (forall i :: |s.answers| <= i < |s'.answers| ==> AnswerRoleRead(trace', s'.answers[i]))
    ensures Traced(s', trace + [s'.tables])
  {
    var trace' := trace + [s'.tables];
    forall c | c in s'.calls ensures s'.calls[c].start < s'.step && CallRoleRead(trace', s'.calls[c]) {
      if c in s.calls && s'.calls[c] == s.calls[c] {
        assert CallRoleRead(trace, s.calls[c]);
      }
    }
    forall i | 0 <= i < |s'.answers| ensures AnswerRoleRead(trace', s'.answers[i]) {
      if i < |s.answers| {
        assert AnswerRoleRead(trace, s.answers[i]);
      }
    }
  }

  lemma LookupIsTraced(s: State, c: nat, a: Action, trace: seq<Tables>)
    requires Sound(s) && Traced(s, trace) && c in s.calls
    ensures Traced(AfterLookup(s, c, a).(step := s.step + 1), trace + [AfterLookup(s, c, a).tables])
  {
    ByEmailMeans(s.tables.credentials, s.calls[c].email);
    assert CallOk(s.tables, s.calls[c]) && CallRoleRead(trace, s.calls[c]);
    assert (trace + [s.tables])[s.step] == s.tables;
    TracedWhenNewIs(s, AfterLookup(s, c, a).(step := s.step + 1), trace);
  }

  lemma CreateCredentialIsTraced(s: State, c: nat, id: string, fault: Fault, trace: seq<Tables>)
    requires Traced(s, trace)
    ensures var s' := AfterCreateCredential(s, c, id, fault); Traced(s'.(step := s.step + 1), trace + [s'.tables])
  {
    var s' := AfterCreateCredential(s, c, id, fault);
    if c in s'.calls && s'.calls[c].phase.Found? && s'.calls != s.calls {
      assert s'.tables.credentials[|s.tables.credentials|] == Credential(id, s.calls[c].email, ROLE_USER);
      assert (trace + [s'.tables])[s.step + 1] == s'.tables;
    }
    TracedWhenNewIs(s, s'.(step := s.step + 1), trace);
  }

  lemma CreateIdentityIsTraced(s: State, c: nat, fault: Fault, trace: seq<Tables>)
    requires Traced(s, trace)
    ensures var s' := AfterCreateIdentity(s, c, fault); Traced(s'.(step := s.step + 1), trace + [s'.tables])
  {
    assert c in s.calls ==> CallRoleRead(trace, s.calls[c]);
    var s' := AfterCreateIdentity(s, c, fault);
    TracedWhenNewIs(s, s'.(step := s.step + 1), trace);
  }

  lemma StepIsTraced(s: State, a: Action, trace: seq<Tables>)
    requires Sound(s) && Traced(s, trace)
    ensures Traced(Step(s, a), trace + [Step(s, a).tables])
  {
    match a
    case CreateCredential(c, id, fault) => CreateCredentialIsTraced(s, c, id, fault, trace);
    case CreateIdentity(c, fault) => CreateIdentityIsTraced(s, c, fault, trace);
    case Register(_, _, _) => TracedWhenNewIs(s, Step(s, a), trace);
    case Promote(_, _) => TracedWhenNewIs(s, Step(s, a), trace);
    case Begin(_, _, _) => TracedWhenNewIs(s, Step(s, a), trace);
    case Fail(_) => TracedWhenNewIs(s, Step(s, a), trace);
    case _ =>
      if a.c in s.calls {
        LookupIsTraced(s, a.c, a, trace);
      } else {
        TracedWhenNewIs(s, Step(s, a), trace);
      }
  }

  lemma {:induction false} RunIsTraced(actions: seq<Action>)
    ensures Traced(Run(actions), Trace(actions))
  {
    if actions == [] {
      assert Trace(actions) == [Init().tables];
    } else {
      var n := |actions| - 1;
      var before := actions[..n];
      RunIsTraced(before);
      RunIsSound(before);
      StepIsTraced(Run(before), actions[n], Trace(before));
      assert Trace(actions) == Trace(before) + [Run(actions).tables] by {
        assert actions[..n + 1] == actions;
        forall j | 0 <= j <= n ensures before[..j] == actions[..j] {
        }
      }
    }
  }

  lemma OwnRoleIsRoleFor(t: Tables, user: string, email: string, role: string)
    requires Consistent(t) && OwnRole(t, user, email, role)
    ensures IsOwner(t.credentials, user, email) && RoleFor(t.credentials, email) == role
  {
    ByEmailMeans(t.credentials, email);
    var k :| 0 <= k < |t.credentials| && t.credentials[k] == Credential(user, email, role);
  }

  /**
   * Every sign-in answers the role that its email's account has, or "user" if there is no such
   * account, at a position of the run after it began: at its FindRole step for a known subject.
   */
  lemma RolesAreReadByEmail(actions: seq<Action>, i: nat)
    requires i < |Run(actions).answers|
    ensures var a := Run(actions).answers[i];
      a.start < a.roleAt <= |actions| && a.role == RoleFor(TablesAt(actions, a.roleAt).credentials, a.email)
  {
    RunIsTraced(actions);
    var a := Run(actions).answers[i];
    assert AnswerRoleRead(Trace(actions), a);
    RunIsSound(actions[..a.roleAt]);
    if !a.known {
      OwnRoleIsRoleFor(TablesAt(actions, a.roleAt), a.user, a.email, a.role);
    }
  }

  lemma OnlyFindRoleAnswersKnown(s: State, a: Action)
    ensures var s' := Step(s, a);
      && s.answers <= s'.answers && |s'.answers| <= |s.answers| + 1
      && (|s'.answers| > |s.answers| && s'.answers[|s.answers|].known ==>
          a.FindRole? && s'.answers[|s.answers|].roleAt == s.step)
  {
  }

  lemma PrefixOfPrefix(actions: seq<Action>, at: nat)
    requires at < |actions| - 1
    ensures actions[..|actions| - 1][..at] == actions[..at] && actions[..|actions| - 1][..at + 1] == actions[..at + 1]
  {
  }

  /** For a known subject that position is its FindRole step, which gives the answer. */
  lemma {:induction false} KnownAnswersAreGivenAtFindRole(actions: seq<Action>, i: nat)
    requires i < |Run(actions).answers| && Run(actions).answers[i].known
    ensures var at := Run(actions).answers[i].roleAt;
      && at < |actions| && actions[at].FindRole?
      && |Run(actions[..at]).answers| == i && |Run(actions[..at + 1]).answers| == i + 1
  {
    var n := |actions| - 1;
    var before := actions[..n];
    RunIsTraced(before);
    OnlyFindRoleAnswersKnown(Run(before), actions[n]);
    assert actions[..n + 1] == actions;
    if i < |Run(before).answers| {
      KnownAnswersAreGivenAtFindRole(before, i);
      PrefixOfPrefix(actions, Run(actions).answers[i].roleAt);
    }
  }

  /** At that position the answered account exists, with the email its subject was linked with. */
  lemma AnsweredAccountHasLinkedEmail(actions: seq<Action>, i: nat)
    requires i < |Run(actions).answers|
    ensures var a := Run(actions).answers[i];
      && a.roleAt <= |actions| && LinkedEmail(Run(actions).tables, a.subject).Some?
      && IsOwner(TablesAt(actions, a.roleAt).credentials, a.user, LinkedEmail(Run(actions).tables, a.subject).value)
      && (!a.known ==> a.email == LinkedEmail(Run(actions).tables, a.subject).value)
  {
    RunIsTraced(actions);
    RunIsSound(actions);
    var s := Run(actions);
    var a := s.answers[i];
    assert AnswerRoleRead(Trace(actions), a) && Linked(s.tables, a.subject, a.user);
    var t := TablesAt(actions, a.roleAt);
    RunIsSound(actions[..a.roleAt]);
    RunKeeps(actions, a.roleAt);
    BySubjectMeans(s.tables.identities, a.subject);
    BySubjectMeans(t.identities, a.subject);
    var email := if a.known then BySubject(t.identities, a.subject).value.email else a.email;
    if !a.known {
      OwnRoleIsRoleFor(t, a.user, a.email, a.role);
    }
    OneEmail(s.tables, a.user, email, BySubject(s.tables.identities, a.subject).value.email);
  }

  /**
   * The lookup lands on the account that is answered if and only if the sign-in's email is the one
   * its subject was linked with. Then the role is that account's own. Otherwise it is "user", or
   * the role of whichever other account the email now belongs to.
   */
  lemma RoleIsTheAccountsExactlyWhileEmailIs(actions: seq<Action>, i: nat)
    requires i < |Run(actions).answers|
    ensures var a := Run(actions).answers[i];
      && a.roleAt <= |actions|
      && var t, own := TablesAt(actions, a.roleAt), LinkedEmail(Run(actions).tables, a.subject) == Some(a.email);
      && (own <==> ByEmail(t.credentials, a.email).Some? && ByEmail(t.credentials, a.email).value.id == a.user)
      && (own ==> OwnRole(t, a.user, a.email, a.role))
      && (!own ==> a.known && match ByEmail(t.credentials, a.email)
                              case Some(other) => other.id != a.user && a.role == other.role
                              case None => a.role == "user")
  {
    RolesAreReadByEmail(actions, i);
    AnsweredAccountHasLinkedEmail(actions, i);
    var a := Run(actions).answers[i];
    var t, email := TablesAt(actions, a.roleAt), LinkedEmail(Run(actions).tables, a.subject).value;
    RunIsSound(actions[..a.roleAt]);
    ByEmailMeans(t.credentials, a.email);
    if a.email == email {
      OneOwner(t, a.user, a.user, email);
    } else if ByEmail(t.credentials, a.email).Some? && ByEmail(t.credentials, a.email).value.id == a.user {
      OneEmail(t, a.user, email, a.email);
      assert false;
    }
  }

  // ---- an uninterrupted sign-in ----

  /** A sign-in's calls back to back; those its branch does not make do nothing. */
  function SignIn(c: nat, subject: string, email: string, newId: string): seq<Action> {
    [Begin(c, subject, email), FindIdentity(c), FindRole(c), FindCredential(c), CreateCredential(c, newId, NoFault),
     CreateIdentity(c, NoFault)]
  }

  lemma RunFromSix(s: State, actions: seq<Action>)
    requires |actions| == 6
    ensures RunFrom(s, actions)
         == Step(
              Step(Step(Step(Step(Step(s, actions[0]), actions[1]), actions[2]), actions[3]), actions[4]), actions[5])
  {
    forall k | 0 <= k < 6 ensures RunFrom(s, actions[..k + 1]) == Step(RunFrom(s, actions[..k]), actions[k]) {
      assert actions[..k + 1][..k] == actions[..k];
    }
    assert actions[..6] == actions && actions[..0] == [];
  }

  /** The state with one call in the given phase. */
  function With(s: State, c: nat, subject: string, email: string, phase: Phase, steps: nat): State {
    s.(step := s.step + steps, calls := s.calls[c := Call(subject, email, s.step, phase)])
  }

  lemma SignInStarts(s: State, c: nat, subject: string, email: string)
    requires c !in s.calls
    ensures var found := BySubject(s.tables.identities, subject);
      Step(Step(s, Begin(c, subject, email)), FindIdentity(c))
      == With(s, c, subject, email, if found.Some? then Known(found.value.user) else Unlinked, 2)
  {
  }

  /** A known subject is answered its account, with the role of whatever account now has the email; no table changes. */
  lemma KnownSignIn(s: State, c: nat, subject: string, email: string, newId: string)
    requires c !in s.calls && BySubject(s.tables.identities, subject).Some?
    ensures var s' := RunFrom(s, SignIn(c, subject, email, newId));
      && s'.tables == s.tables && s'.calls == s.calls && s'.step == s.step + 6
      && s'.answers == s.answers + [Answer(subject, email, BySubject(s.tables.identities, subject).value.user,
                                           RoleFor(s.tables.credentials, email), true, s.step, s.step + 2)]
  {
    RunFromSix(s, SignIn(c, subject, email, newId));
    SignInStarts(s, c, subject, email);
    var user := BySubject(s.tables.identities, subject).value.user;
    KnownSignInEnds(s, With(s, c, subject, email, Known(user), 2), c, subject, email, user, newId);
  }

  lemma KnownSignInEnds(s: State, t: State, c: nat, subject: string, email: string, user: string, newId: string)
    requires c !in s.calls && t == With(s, c, subject, email, Known(user), 2)
    ensures var role := RoleFor(s.tables.credentials, email);
      var u := Step(Step(Step(t, FindRole(c)), FindCredential(c)), CreateCredential(c, newId, NoFault));
      Step(u, CreateIdentity(c, NoFault))
      == s.(step := s.step + 6, answers := s.answers + [Answer(subject, email, user, role, true, s.step, s.step + 2)])
  {
    assert t.calls - {c} == s.calls;
  }

  /** The account a first sign-in is to be linked to. */
  function AccountFor(t: Tables, email: string, newId: string): Credential {
    if ByEmail(t.credentials, email).Some? then ByEmail(t.credentials, email).value
    else Credential(newId, email, ROLE_USER)
  }

  function WithAccount(t: Tables, email: string, newId: string): seq<Credential> {
    if ByEmail(t.credentials, email).Some? then t.credentials else t.credentials + [AccountFor(t, email, newId)]
  }

  lemma NewSignInFindsAccount(s: State, t: State, c: nat, subject: string, email: string, newId: string)
    requires t == With(s, c, subject, email, Unlinked, 2) && ById(s.tables.credentials, newId).None?
    ensures var s', cred := Step(Step(Step(t, FindRole(c)), FindCredential(c)), CreateCredential(c, newId, NoFault)),
                            AccountFor(s.tables, email, newId);
      var roleAt := if ByEmail(s.tables.credentials, email).Some? then s.step + 3 else s.step + 5;
      s' == With(s, c, subject, email, Found(cred.id, cred.role, roleAt), 5).(
              tables := s.tables.(credentials := WithAccount(s.tables, email, newId)))
  {
    var u := Step(t, FindRole(c));
    assert u == t.(step := s.step + 3);
  }

  lemma NewSignInLinks(s: State, t: State, c: nat, call: Call, user: string, role: string, roleAt: nat)
    requires c !in s.calls && t.calls == s.calls[c := call] && call.phase == Found(user, role, roleAt)
    requires BySubject(t.tables.identities, call.subject).None? && ById(t.tables.credentials, user).Some?
    ensures var s' := Step(t, CreateIdentity(c, NoFault));
      && s'.calls == s.calls && s'.step == t.step + 1 && s'.tables.credentials == t.tables.credentials
      && s'.tables.identities == t.tables.identities + [Identity(user, call.subject, call.email)]
      && s'.answers == t.answers + [Answer(call.subject, call.email, user, role, false, call.start, roleAt)]
  {
    assert t.calls - {c} == s.calls;
  }

  lemma AccountIsThere(t: Tables, email: string, newId: string)
    ensures ById(WithAccount(t, email, newId), AccountFor(t, email, newId).id).Some?
  {
    ByEmailMeans(t.credentials, email);
    var creds := WithAccount(t, email, newId);
    ByIdMeans(creds, AccountFor(t, email, newId).id);
    if ByEmail(t.credentials, email).None? {
      assert creds[|creds| - 1].id == newId;
    }
  }

  /** A new subject is linked to its email's account and answered that account's role, or to a new plain account. */
  lemma NewSignIn(s: State, c: nat, subject: string, email: string, newId: string)
    requires c !in s.calls && BySubject(s.tables.identities, subject).None? && ById(s.tables.credentials, newId).None?
    ensures var s', cred := RunFrom(s, SignIn(c, subject, email, newId)), AccountFor(s.tables, email, newId);
      && s'.calls == s.calls && s'.step == s.step + 6
      && |s'.answers| == |s.answers| + 1 && s.answers <= s'.answers
      && s'.answers[|s.answers|].user == cred.id && s'.answers[|s.answers|].role == cred.role
      && s'.tables.identities == s.tables.identities + [Identity(cred.id, subject, email)]
      && match ByEmail(s.tables.credentials, email)
         case Some(existing) => cred == existing && s'.tables.credentials == s.tables.credentials
         case None =>
           cred == Credential(newId, email, "user") && s'.tables.credentials == s.tables.credentials + [cred]
  {
    RunFromSix(s, SignIn(c, subject, email, newId));
    SignInStarts(s, c, subject, email);
    var t := With(s, c, subject, email, Unlinked, 2);
    NewSignInFindsAccount(s, t, c, subject, email, newId);
    AccountIsThere(s.tables, email, newId);
    var u := Step(Step(Step(t, FindRole(c)), FindCredential(c)), CreateCredential(c, newId, NoFault));
    var f := u.calls[c].phase;
    NewSignInLinks(s, u, c, u.calls[c], f.user, f.role, f.roleAt);
  }

  // ---- sign-ins that answer the wrong role ----

  lemma {:induction false} RunFromConcat(s: State, a: seq<Action>, b: seq<Action>)
    ensures RunFrom(s, a + b) == RunFrom(RunFrom(s, a), b)
  {
    if b == [] {
      assert a + b == a;
    } else {
      assert (a + b)[..|a + b| - 1] == a + b[..|b| - 1];
      RunFromConcat(s, a, b[..|b| - 1]);
    }
  }

  /** A first sign-in into empty tables. */
  lemma FirstSignIn(subject: string, email: string, id: string)
    ensures var s := Run(SignIn(0, subject, email, id));
      s.tables == Tables([Credential(id, email, "user")], [Identity(id, subject, email)]) && s.calls == map[]
      && |s.answers| == 1
  {
    NewSignIn(Init(), 0, subject, email, id);
  }

  /** An account is promoted, its owner's Google email changes, and the next sign-in is a plain user's. */
  lemma PromotedSignsInAsUser(subject: string, email: string, newEmail: string, id: string) returns (run: seq<Action>)
    requires email != newEmail
    ensures var s := Run(run);
      && |s.answers| == 2 && s.answers[1].subject == subject && s.answers[1].user == id
      && s.tables.credentials == [Credential(id, email, "admin")] && s.answers[1].role == "user"
  {
    var first, promote := SignIn(0, subject, email, id), [Promote(id, "admin")];
    run := first + promote + SignIn(1, subject, newEmail, id);
    FirstSignIn(subject, email, id);
    RunFromConcat(Init(), first, promote);
    assert promote[..0] == [];
    var s := Run(first + promote);
    assert s.tables.credentials == [Credential(id, email, "admin")];
    RunFromConcat(Init(), first + promote, SignIn(1, subject, newEmail, id));
    ByEmailMeans(s.tables.credentials, newEmail);
    KnownSignIn(s, 1, subject, newEmail, id);
  }

  /** The new email belongs to another, promoted account: the answer pairs one account's id with the other's role. */
  lemma SignsInWithAnothersRole(subject: string, email: string, newEmail: string, id: string, other: string)
    returns (run: seq<Action>)
    requires email != newEmail && id != other
    ensures var s := Run(run);
      && |s.answers| == 2 && s.answers[1].subject == subject && s.answers[1].user == id && s.answers[1].role == "admin"
      && s.tables.credentials == [Credential(id, email, "user"), Credential(other, newEmail, "admin")]
  {
    var first, others := SignIn(0, subject, email, id), [Register(other, newEmail, NoFault), Promote(other, "admin")];
    run := first + others + SignIn(1, subject, newEmail, id);
    FirstSignIn(subject, email, id);
    RunFromConcat(Init(), first, others);
    OtherIsPromoted(Run(first), email, newEmail, id, other);
    RunFromConcat(Init(), first + others, SignIn(1, subject, newEmail, id));
    KnownSignIn(Run(first + others), 1, subject, newEmail, id);
  }

  lemma OtherIsPromoted(s: State, email: string, newEmail: string, id: string, other: string)
    requires s.tables.credentials == [Credential(id, email, ROLE_USER)] && email != newEmail && id != other
    ensures var s' := RunFrom(s, [Register(other, newEmail, NoFault), Promote(other, "admin")]);
      && s'.tables.credentials == [Credential(id, email, ROLE_USER), Credential(other, newEmail, "admin")]
      && s'.tables.identities == s.tables.identities && s'.calls == s.calls && s'.answers == s.answers
      && RoleFor(s'.tables.credentials, newEmail) == "admin"
  {
    var actions := [Register(other, newEmail, NoFault), Promote(other, "admin")];
    assert actions[..1] == [actions[0]] && actions[..1][..0] == [];
    assert RunFrom(s, actions[..1]) == Step(s, actions[0]);
    assert RunFrom(s, actions) == Step(Step(s, actions[0]), actions[1]);
    ByEmailMeans(s.tables.credentials, newEmail);
    ByIdMeans(s.tables.credentials, other);
    assert Step(s, actions[0]).tables.credentials == s.tables.credentials + [Credential(other, newEmail, ROLE_USER)];
  }
}
