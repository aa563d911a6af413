/** checkUser: find or create the local user row for the principal that the
    identity provider reports as signed in. */
module CheckUser {
  import opened Results
  import opened JsText
  import opened Store

  /** The identity provider's view of the signed-in user. */
  datatype Principal = Principal(
    id: string,
    emailAddresses: seq<string>,
    firstName: Option<string>,
    lastName: Option<string>,
    imageUrl: string)

  /** `user.emailAddresses?.[0]?.emailAddress`, treated as absent when empty. */
  function PrimaryEmail(p: Principal): (e: Option<string>)
    ensures e.None? <==> p.emailAddresses == [] || p.emailAddresses[0] == ""
    ensures e.Some? ==> e.value == p.emailAddresses[0]
  {
    if p.emailAddresses == [] || p.emailAddresses[0] == "" then None else Some(p.emailAddresses[0])
  }

  /** `${firstName || ''} ${lastName || ''}`.trim() || 'User'. */
  function DisplayName(first: Option<string>, last: Option<string>): (name: string)
    ensures name != [] && Trimmed(name)
  {
    var joined := Trim(first.GetOr("") + " " + last.GetOr(""));
    if joined == "" then "User" else joined
  }

  /** Two trimmed, non-empty name parts are joined by one space. */
  lemma DisplayNameBothParts(first: string, last: string)
    requires first != [] && last != [] && Trimmed(first) && Trimmed(last)
    ensures DisplayName(Some(first), Some(last)) == first + " " + last
  {
    var joined := first + " " + last;
    assert joined[0] == first[0] && joined[|joined| - 1] == last[|last| - 1];
    TrimOfTrimmed(joined);
  }

  /** A single trimmed part stands alone, without the joining space. */
  lemma DisplayNameFirstOnly(first: string)
    requires first != [] && Trimmed(first)
    ensures DisplayName(Some(first), None) == first
  {
    var s := first + " " + "";
    assert s == [] + first + " ";
    assert AllSpace(" ");
    TrimPadded([], first, " ");
    assert Trim(s) == first;
  }

  /** Whatever white space the parts carry, the name is the joined text with
      the white space around it removed: if the joined parts are some white
      space, a trimmed non-empty body and some white space, the name is that body. */
  lemma DisplayNamePadded(first: Option<string>, last: Option<string>, lead: string, body: string, trail: string)
    requires AllSpace(lead) && AllSpace(trail) && Trimmed(body) && body != []
    requires first.GetOr("") + " " + last.GetOr("") == lead + body + trail
    ensures DisplayName(first, last) == body
  {
    TrimPadded(lead, body, trail);
  }

  /** A last name given alone stands alone, without the joining space. */
  lemma DisplayNameLastOnly(last: string)
    requires last != [] && Trimmed(last)
    ensures DisplayName(None, Some(last)) == last
  {
    assert AllSpace(" ") && AllSpace([]);
    assert None.GetOr("") + " " + Some(last).GetOr("") == " " + last + [];
    DisplayNamePadded(None, Some(last), " ", last, []);
  }

  /** When both parts are missing or blank the name is 'User'. */
  lemma DisplayNameBlank(first: Option<string>, last: Option<string>)
    requires AllSpace(first.GetOr("")) && AllSpace(last.GetOr(""))
    ensures DisplayName(first, last) == "User"
  {
    var s := first.GetOr("") + " " + last.GetOr("");
    assert AllSpace(s) by {
      forall i | 0 <= i < |s| ensures IsSpace(s[i]) {
        if i < |first.GetOr("")| {
        } else if i == |first.GetOr("")| {
        } else {
          assert s[i] == last.GetOr("")[i - |first.GetOr("")| - 1];
        }
      }
    }
    TrimEmptyIffAllSpace(s);
  }

  /** The row written when a principal is attached to a user found by email. */
  function Reconciled(u: User, p: Principal): User {
    u.(clerkUserId := p.id, name := DisplayName(p.firstName, p.lastName), imageUrl := p.imageUrl)
  }

  /** Attaches the principal to the row found by its email: that row gets the
      subject id, the display name and the image; nothing else changes. */
  method AttachPrincipal(db: Database, k: nat, p: Principal) returns (u: User)
    requires db.Valid() && k < |db.users|
    requires UserWithClerkId(db.users, p.id).None?
    modifies db
    ensures db.Valid()
    ensures db.users == old(db.users)[k := Reconciled(old(db.users)[k], p)]
    ensures db.records == old(db.records) && db.nextUserId == old(db.nextUserId) && db.nextRecordId == old(db.nextRecordId)
    ensures u == db.users[k]
  {
    u := Reconciled(db.users[k], p);
    ReplaceUserKeepsConsistent(db.users, db.records, db.nextUserId, db.nextRecordId, k, u);
    db.users := db.users[k := u];
  }

  /** Creates the row for a principal whose subject id and email are both new. */
  method CreateUser(db: Database, p: Principal, email: string) returns (u: User)
    requires db.Valid() && email != ""
    requires forall i :: 0 <= i < |db.users| ==> db.users[i].clerkUserId != p.id && db.users[i].email != email
    modifies db
    ensures db.Valid()
    ensures u == User(old(db.nextUserId), p.id, email, DisplayName(p.firstName, p.lastName), p.imageUrl)
    ensures db.users == old(db.users) + [u] && db.nextUserId == old(db.nextUserId) + 1
    ensures db.records == old(db.records) && db.nextRecordId == old(db.nextRecordId)
  {
    u := User(db.nextUserId, p.id, email, DisplayName(p.firstName, p.lastName), p.imageUrl);
    AppendUserKeepsConsistent(db.users, db.records, db.nextUserId, db.nextRecordId, u);
    db.users, db.nextUserId := db.users + [u], db.nextUserId + 1;
  }

  /** Resolves the signed-in principal to a user row. Lookup by subject id comes
      first; without an email nothing more happens; a row with the email gets
      the subject id attached; otherwise a row is created. `createFails`
      stands for the create query throwing, after which the subject id is
      looked up once more. */
  method CheckUser(db: Database, principal: Option<Principal>, createFails: bool) returns (r: Option<User>)
    requires db.Valid()
    modifies db
    ensures db.Valid()
    ensures db.records == old(db.records) && db.nextRecordId == old(db.nextRecordId)
    ensures principal.None? ==> r.None? && unchanged(db)
    ensures principal.Some? && UserWithClerkId(old(db.users), principal.value.id).Some? ==>
      r == UserWithClerkId(old(db.users), principal.value.id) && unchanged(db)
    ensures principal.Some? && UserWithClerkId(old(db.users), principal.value.id).None?
            && PrimaryEmail(principal.value).None? ==>
      r.None? && unchanged(db)
    ensures principal.Some? && UserWithClerkId(old(db.users), principal.value.id).None?
            && PrimaryEmail(principal.value).Some?
            && FindByEmail(old(db.users), PrimaryEmail(principal.value).value).Some? ==>
      var k := FindByEmail(old(db.users), PrimaryEmail(principal.value).value).value;
      && db.users == old(db.users)[k := Reconciled(old(db.users)[k], principal.value)]
      && db.nextUserId == old(db.nextUserId)
      && r == Some(db.users[k])
    ensures principal.Some? && UserWithClerkId(old(db.users), principal.value.id).None?
            && PrimaryEmail(principal.value).Some?
            && FindByEmail(old(db.users), PrimaryEmail(principal.value).value).None? && createFails ==>
      r == UserWithClerkId(db.users, principal.value.id) && r.None? && unchanged(db)
    ensures principal.Some? && UserWithClerkId(old(db.users), principal.value.id).None?
            && PrimaryEmail(principal.value).Some?
            && FindByEmail(old(db.users), PrimaryEmail(principal.value).value).None? && !createFails ==>
      var p := principal.value;
      var created := User(old(db.nextUserId), p.id, PrimaryEmail(p).value, DisplayName(p.firstName, p.lastName), p.imageUrl);
      && db.users == old(db.users) + [created]
      && db.nextUserId == old(db.nextUserId) + 1
      && r == Some(created)
  {
    if principal.None? {
      return None;
    }
    var p := principal.value;
    var loggedIn := UserWithClerkId(db.users, p.id);
    if loggedIn.Some? {
      return loggedIn;
    }
    var email := PrimaryEmail(p);
    if email.None? {
      return None;
    }
    var byEmail := FindByEmail(db.users, email.value);
    if byEmail.Some? {
      var updated := AttachPrincipal(db, byEmail.value, p);
      return Some(updated);
    }
    if createFails {
      r := UserWithClerkId(db.users, p.id);
      return;
    }
    var created := CreateUser(db, p, email.value);
    r := Some(created);
  }
}
