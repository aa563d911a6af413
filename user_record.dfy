/** getUserRecord: the signed-in user's total spend and the number of their
    records with a positive amount (the figure the statistics call "days with
    expenses", although it counts records, not calendar days). */
module UserRecord {
  import opened Results
  import opened Aggregates
  import opened Store

  /** The action's result object; a field that is not set is None. */
  datatype UserRecordResult = UserRecordResult(record: Option<real>, daysWithRecords: Option<nat>, error: Option<string>)

  /** `fetchFails` stands for the record query throwing. */
  function GetUserRecord(users: seq<User>, records: seq<Record>, authUserId: Option<string>, fetchFails: bool)
    : (r: UserRecordResult)
    ensures r.error.Some? <==> r.record.None?
    ensures r.error.Some? ==> r.daysWithRecords.None?
    ensures r.error.None? ==> r.daysWithRecords.Some?
    ensures r.error == if ResolveOwner(users, authUserId).Err? then Some(ResolveOwner(users, authUserId).error)
                       else if fetchFails then Some(DatabaseError) else None
  {
    match ResolveOwner(users, authUserId)
    case Err(e) => UserRecordResult(None, None, Some(e))
    case Ok(owner) =>
      if fetchFails then UserRecordResult(None, None, Some(DatabaseError))
      else
        var amounts := Amounts(RecordsOf(records, owner.id));
        UserRecordResult(Some(Sum(amounts)), Some(CountPositive(amounts)), None)
  }

  /** On success the total is the sum over the owner's records, and the count
      is the number of those records whose amount is positive: it never
      exceeds the number of records, reaching it exactly when every amount is
      positive. */
  lemma UserRecordTotals(users: seq<User>, records: seq<Record>, authUserId: Option<string>)
    requires ResolveOwner(users, authUserId).Ok?
    ensures var owned := RecordsOf(records, ResolveOwner(users, authUserId).value.id);
            var r := GetUserRecord(users, records, authUserId, false);
            && r.record == Some(Sum(Amounts(owned)))
            && r.daysWithRecords.value == |set i | 0 <= i < |owned| && owned[i].amount > 0.0|
            && r.daysWithRecords.value <= |owned|
            && (r.daysWithRecords.value == |owned| <==> forall x :: x in owned ==> x.amount > 0.0)
  {
    var owned := RecordsOf(records, ResolveOwner(users, authUserId).value.id);
    var a := Amounts(owned);
    assert PositiveIndices(a) == set i | 0 <= i < |owned| && owned[i].amount > 0.0;
    assert (forall x :: x in owned ==> x.amount > 0.0) <==> (forall i :: 0 <= i < |a| ==> a[i] > 0.0) by {
      if forall i :: 0 <= i < |a| ==> a[i] > 0.0 {
        forall x | x in owned ensures x.amount > 0.0 {
          var i :| 0 <= i < |owned| && owned[i] == x;
          assert a[i] == x.amount;
        }
      }
    }
  }

  /** In a consistent store every amount is positive, so the figure equals the
      number of the owner's records, however many share a calendar day. */
  lemma DaysCountRecords(users: seq<User>, records: seq<Record>, authUserId: Option<string>)
    requires ResolveOwner(users, authUserId).Ok?
    requires forall i :: 0 <= i < |records| ==> AcceptableRecord(records[i])
    ensures GetUserRecord(users, records, authUserId, false).daysWithRecords
         == Some(|RecordsOf(records, ResolveOwner(users, authUserId).value.id)|)
  {
    UserRecordTotals(users, records, authUserId);
    var owned := RecordsOf(records, ResolveOwner(users, authUserId).value.id);
    forall x | x in owned ensures x.amount > 0.0 {
      assert x in records;
      var i :| 0 <= i < |records| && records[i] == x;
      assert AcceptableRecord(records[i]);
    }
  }

  /** A user with no records has a total of 0 over 0 records. */
  lemma NoRecordsGivesZero(users: seq<User>, records: seq<Record>, authUserId: Option<string>)
    requires ResolveOwner(users, authUserId).Ok?
    requires RecordsOf(records, ResolveOwner(users, authUserId).value.id) == []
    ensures GetUserRecord(users, records, authUserId, false) == UserRecordResult(Some(0.0), Some(0), None)
  {
  }
}
