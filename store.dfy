/** The relational store behind the server actions, reduced to its two tables.
    Rows are values; the tables are fields of one Database object that the
    writing operations update in place. Identifiers that the store generates
    are drawn from counters. */
module Store {
  import opened Results
  import opened JsText
  import opened Categories
  import opened Dates

  /** A row of the user table: its own id, the identity provider's subject id,
      and the profile fields copied from the provider. */
  datatype User = User(id: nat, clerkUserId: string, email: string, name: string, imageUrl: string)

  /** A row of the record table: one expense, owned by the user whose id it carries. */
  datatype Record = Record(id: nat, text: string, amount: real, category: string, date: CivilDate, userId: nat)

  /** What the add action checks before it writes a record. */
  predicate AcceptableRecord(r: Record) {
    && 0.0 < r.amount <= 1000000.0
    && Utf16Length(r.text) <= 500
    && IsCategory(r.category)
    && IsCalendarDate(r.date) && InTimeRange(r.date)
  }

  /** The unique constraints of the user table: id, subject id and email. */
  predicate UniqueUsers(users: seq<User>) {
    forall i, j :: 0 <= i < j < |users| ==>
      users[i].id != users[j].id && users[i].clerkUserId != users[j].clerkUserId && users[i].email != users[j].email
  }

  predicate HasUserId(users: seq<User>, id: nat) {
    exists i :: 0 <= i < |users| && users[i].id == id
  }

  /** `findUnique({ where: { clerkUserId } })`, as the position of the row. */
  function FindByClerkId(users: seq<User>, clerkUserId: string): (r: Option<nat>)
    ensures r.Some? ==> r.value < |users| && users[r.value].clerkUserId == clerkUserId
    ensures r.None? ==> forall i :: 0 <= i < |users| ==> users[i].clerkUserId != clerkUserId
  {
    if users == [] then None
    else if users[|users| - 1].clerkUserId == clerkUserId then Some(|users| - 1)
    else FindByClerkId(users[..|users| - 1], clerkUserId)
  }

  /** `findUnique({ where: { clerkUserId } })`, as the row itself. */
  function UserWithClerkId(users: seq<User>, clerkUserId: string): (r: Option<User>)
    ensures r.Some? ==> r.value in users && r.value.clerkUserId == clerkUserId
    ensures r.None? <==> forall i :: 0 <= i < |users| ==> users[i].clerkUserId != clerkUserId
  {
    match FindByClerkId(users, clerkUserId)
    case None => None
    case Some(i) => Some(users[i])
  }

  /** `findUnique({ where: { email } })`, as the position of the row. */
  function FindByEmail(users: seq<User>, email: string): (r: Option<nat>)
    ensures r.Some? ==> r.value < |users| && users[r.value].email == email
    ensures r.None? ==> forall i :: 0 <= i < |users| ==> users[i].email != email
  {
    if users == [] then None
    else if users[|users| - 1].email == email then Some(|users| - 1)
    else FindByEmail(users[..|users| - 1], email)
  }

  /** `findMany({ where: { userId } })`: the owner's records in table order. */
  function RecordsOf(records: seq<Record>, userId: nat): (r: seq<Record>)
    ensures |r| <= |records|
    ensures forall x :: x in r <==> x in records && x.userId == userId
    ensures forall x :: multiset(r)[x] == if x.userId == userId then multiset(records)[x] else 0
  {
    if records == [] then []
    else
      var init := RecordsOf(records[..|records| - 1], userId);
      var last := records[|records| - 1];
      assert records == records[..|records| - 1] + [last];
      if last.userId == userId then init + [last] else init
  }

  /** `records.map(r => r.amount)`. */
  function Amounts(records: seq<Record>): (a: seq<real>)
    ensures |a| == |records|
    ensures forall i :: 0 <= i < |records| ==> a[i] == records[i].amount
  {
    seq(|records|, i requires 0 <= i < |records| => records[i].amount)
  }

  const UserNotFound := "User not found"
  const DatabaseUserNotFound := "Database user not found"
  const DatabaseError := "Database error"

  /** The prologue every server action shares: the signed-in subject id from
      `auth()` must be present and non-empty, and a user row must carry it. */
  function ResolveOwner(users: seq<User>, authUserId: Option<string>): (r: Result<User>)
    ensures r == Err(UserNotFound) <==> authUserId.None? || authUserId.value == ""
    ensures r == Err(DatabaseUserNotFound) <==>
      authUserId.Some? && authUserId.value != "" && FindByClerkId(users, authUserId.value).None?
    ensures r.Ok? ==> authUserId.Some? && r.value in users && r.value.clerkUserId == authUserId.value
  {
    if authUserId.None? || authUserId.value == "" then Err(UserNotFound)
    else match FindByClerkId(users, authUserId.value)
      case None => Err(DatabaseUserNotFound)
      case Some(i) => Ok(users[i])
  }

  /** The store's invariant over a snapshot of both tables and the counters:
      the unique constraints hold, generated ids are below their counters,
      every record passed the add action's checks and belongs to an existing
      user, and every user has an email. */
  predicate Consistent(users: seq<User>, records: seq<Record>, nextUserId: nat, nextRecordId: nat) {
    UsersConsistent(users, nextUserId) && RecordsConsistent(users, records, nextRecordId)
  }

  predicate UsersConsistent(users: seq<User>, nextUserId: nat) {
    && UniqueUsers(users)
    && (forall i :: 0 <= i < |users| ==> users[i].id < nextUserId && users[i].email != "")
  }

  predicate RecordsConsistent(users: seq<User>, records: seq<Record>, nextRecordId: nat) {
    && (forall i :: 0 <= i < |records| ==> records[i].id < nextRecordId)
    && (forall i, j :: 0 <= i < j < |records| ==> records[i].id != records[j].id)
    && (forall i :: 0 <= i < |records| ==> AcceptableRecord(records[i]) && HasUserId(users, records[i].userId))
  }

  /** Rewriting one user row in place, keeping its id and email and giving it
      a subject id no other row carries, keeps the store consistent. */
  lemma {:induction false} ReplaceUserKeepsConsistent(users: seq<User>, records: seq<Record>, nextUserId: nat, nextRecordId: nat, k: nat, u: User)
    requires Consistent(users, records, nextUserId, nextRecordId)
    requires k < |users| && u.id == users[k].id && u.email == users[k].email
    requires forall i :: 0 <= i < |users| && i != k ==> users[i].clerkUserId != u.clerkUserId
    ensures Consistent(users[k := u], records, nextUserId, nextRecordId)
  {
    var users' := users[k := u];
    forall i | 0 <= i < |records| ensures HasUserId(users', records[i].userId) {
      var j :| 0 <= j < |users| && users[j].id == records[i].userId;
      assert users'[j].id == users[j].id;
    }
  }

  /** Appending a user row with a fresh id, a non-empty email and a subject id
      and email no row carries keeps the store consistent. */
  lemma {:induction false} AppendUserKeepsConsistent(users: seq<User>, records: seq<Record>, nextUserId: nat, nextRecordId: nat, u: User)
    requires Consistent(users, records, nextUserId, nextRecordId)
    requires u.id == nextUserId && u.email != ""
    requires forall i :: 0 <= i < |users| ==> users[i].clerkUserId != u.clerkUserId && users[i].email != u.email
    ensures Consistent(users + [u], records, nextUserId + 1, nextRecordId)
  {
    var users' := users + [u];
    forall i | 0 <= i < |records| ensures HasUserId(users', records[i].userId) {
      var j :| 0 <= j < |users| && users[j].id == records[i].userId;
      assert users'[j].id == users[j].id;
    }
  }

  /** Appending an acceptable record with a fresh id for an existing user
      keeps the store consistent. */
  lemma {:induction false} AppendRecordKeepsConsistent(users: seq<User>, records: seq<Record>, nextUserId: nat, nextRecordId: nat, r: Record)
    requires Consistent(users, records, nextUserId, nextRecordId)
    requires r.id == nextRecordId && AcceptableRecord(r) && HasUserId(users, r.userId)
    ensures Consistent(users, records + [r], nextUserId, nextRecordId + 1)
  {
    var records' := records + [r];
    forall i, j | 0 <= i < j < |records'| ensures records'[i].id != records'[j].id {
      if j < |records| {
        assert records'[i] == records[i] && records'[j] == records[j];
      } else {
        assert records'[i].id < nextRecordId;
      }
    }
  }

  /** The two tables. */
  class Database {
    var users: seq<User>
    var records: seq<Record>
    var nextUserId: nat
    var nextRecordId: nat

    ghost predicate Valid()
      reads this
    {
      Consistent(users, records, nextUserId, nextRecordId)
    }

    constructor ()
      ensures Valid() && users == [] && records == []
    {
      users, records := [], [];
      nextUserId, nextRecordId := 0, 0;
    }
  }
}
