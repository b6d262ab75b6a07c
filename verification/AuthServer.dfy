/** auth-service's own code, one call at a time. */
module AuthServer {
  import opened Prelude
  import opened Accounts
  import opened AccountRoles

  datatype Faults = Faults(findIdentity: bool, findCredential: bool, createCredential: Fault, createIdentity: Fault)

  datatype SignedIn = SignedIn(user: string, role: string)

  /** bcrypt refuses longer passwords, and the code then creates no account. */
  const MAX_HASHED := 72

  class Server {
    var t: Tables

    constructor ()
      ensures t == Tables([], [])
    {
      t := Tables([], []);
    }

    method CreateCredential(c: Credential, fault: Fault) returns (ok: bool)
      modifies this
      ensures t == WithCredential(old(t), c, fault) && ok == (fault.NoFault? && CanCreateCredential(old(t), c))
    {
      ok := false;
      if fault.Refuse? || ByEmail(t.credentials, c.email).Some? || ById(t.credentials, c.id).Some? {
        return;
      }
      t := t.(credentials := t.credentials + [c]);
      ok := fault.NoFault?;
    }

    method CreateIdentity(i: Identity, fault: Fault) returns (ok: bool)
      modifies this
      ensures t == WithIdentity(old(t), i, fault) && ok == (fault.NoFault? && CanCreateIdentity(old(t), i))
    {
      ok := false;
      if fault.Refuse? || BySubject(t.identities, i.subject).Some? || ById(t.credentials, i.user).None? {
        return;
      }
      t := t.(identities := t.identities + [i]);
      ok := fault.NoFault?;
    }

    /** A password account: refused for an email that has an account already. */
    method Register(id: string, email: string, password: string, hashFault: bool, fault: Fault) returns (ok: bool)
      requires Consistent(t)
      modifies this
      ensures Consistent(t) && t.identities == old(t.identities)
      ensures ok <==>
        email != "" && 8 <= |password| <= 72 && !hashFault && fault.NoFault? && IsFree(old(t.credentials), id, email)
      // a lost reply loses the reply, not the account
      ensures t.credentials
        == old(t.credentials)
           + if email != "" && 8 <= |password| <= 72 && !hashFault && !fault.Refuse?
               && IsFree(old(t.credentials), id, email)
             then [Credential(id, email, "user")]
             else []
    {
      ok := false;
      if email == "" || |password| < 8 {
        return;
      }
      if |password| > MAX_HASHED || hashFault {
        return;
      }
      CredentialKeepsConsistent(t, Credential(id, email, ROLE_USER), fault);
      ByEmailMeans(t.credentials, email);
      ByIdMeans(t.credentials, id);
      ok := CreateCredential(Credential(id, email, ROLE_USER), fault);
    }

    method FindOrCreateCredentialForEmail(email: string, newId: string, faults: Faults) returns (r: Option<SignedIn>)
      requires Consistent(t)
      modifies this
      ensures Consistent(t) && t.identities == old(t.identities)
      ensures t.credentials == old(t.credentials)
           || (ByEmail(old(t.credentials), email).None?
             && t.credentials == old(t.credentials) + [Credential(newId, email, "user")])
      ensures r.Some? ==> IsOwner(t.credentials, r.value.user, email) && ById(t.credentials, r.value.user).Some?
      ensures r.Some? ==> OwnRole(t, r.value.user, email, r.value.role)
      ensures r.Some? ==> r.value == (match ByEmail(old(t.credentials), email)
                                      case Some(c) => SignedIn(c.id, c.role)
                                      case None => SignedIn(newId, "user"))
      ensures ByEmail(old(t.credentials), email).Some? && !faults.findCredential ==> r.Some? && t == old(t)
      ensures !faults.findCredential && faults.createCredential.NoFault? ==>
        IsFree(old(t.credentials), newId, email) ==> r.Some?
    {
      if faults.findCredential {
        return None;
      }
      ByEmailMeans(t.credentials, email);
      var existing := ByEmail(t.credentials, email);
      if existing.Some? {
        ByIdMeans(t.credentials, existing.value.id);
        return Some(SignedIn(existing.value.id, existing.value.role));
      }
      var cred := Credential(newId, email, ROLE_USER);
      ByIdMeans(t.credentials, newId);
      CredentialKeepsConsistent(t, cred, faults.createCredential);
      var ok := CreateCredential(cred, faults.createCredential);
      if !ok {
        return None;
      }
      assert t.credentials[|t.credentials| - 1] == cred;
      return Some(SignedIn(newId, ROLE_USER));
    }

    /** A known subject keeps its account; a new one is linked to its email's account, existing or new. */
    method LinkOrCreateGoogleUser(subject: string, email: string, newId: string, faults: Faults)
      returns (r: Option<SignedIn>)
      requires Consistent(t)
      modifies this
      ensures Consistent(t)
      ensures r.Some? ==> Linked(t, subject, r.value.user)
      ensures r.Some? ==> r.value.role == (match ByEmail(old(t.credentials), email)
                                           case Some(c) => c.role
                                           case None => "user")
      ensures r.Some? ==>
        BySubject(old(t.identities), subject).None? || IsOwner(t.credentials, r.value.user, email) ==>
          OwnRole(t, r.value.user, email, r.value.role)
      ensures BySubject(old(t.identities), subject).Some? ==> t == old(t)
      ensures BySubject(old(t.identities), subject).None? && r.Some? ==>
        && IsOwner(t.credentials, r.value.user, email)
        && t.identities == old(t.identities) + [Identity(r.value.user, subject, email)]
      ensures ByEmail(old(t.credentials), email).Some? && BySubject(old(t.identities), subject).None? && r.Some? ==>
        r.value.user == ByEmail(old(t.credentials), email).value.id && t.credentials == old(t.credentials)
      ensures t.credentials == old(t.credentials)
           || (ByEmail(old(t.credentials), email).None?
             && t.credentials == old(t.credentials) + [Credential(newId, email, "user")])
      ensures faults == Faults(false, false, NoFault, NoFault) && ById(old(t.credentials), newId).None? ==> r.Some?
    {
      if faults.findIdentity {
        return None;
      }
      BySubjectMeans(t.identities, subject);
      var existing := BySubject(t.identities, subject);
      if existing.Some? {
        if faults.findCredential {
          return None;
        }
        ByEmailMeans(t.credentials, email);
        if IsOwner(t.credentials, existing.value.user, email) {
          OneOwner(t, existing.value.user, existing.value.user, email);
        }
        var cred := ByEmail(t.credentials, email);
        return Some(SignedIn(existing.value.user, if cred.Some? then cred.value.role else ROLE_USER));
      }
      ByEmailMeans(t.credentials, email);
      ByIdMeans(t.credentials, newId);
      r := FindOrCreateCredentialForEmail(email, newId, faults);
      if r.None? {
        return;
      }
      var ident := Identity(r.value.user, subject, email);
      IdentityKeepsConsistent(t, ident, faults.createIdentity);
      LinksStay(t.identities, ident, subject);
      var ok := CreateIdentity(ident, faults.createIdentity);
      if !ok {
        return None;
      }
    }
  }
}
