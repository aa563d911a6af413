/** getBestWorstExpense: the largest and the smallest amount among the
    signed-in user's records, with 0 and 0 standing in when there is none. */
module BestWorst {
  import opened Results
  import opened Aggregates
  import opened Store

  /** The action's result object; a field that is not set is None. */
  datatype RangeResult = RangeResult(bestExpense: Option<real>, worstExpense: Option<real>, error: Option<string>)

  /** `fetchFails` stands for the record query throwing. */
  function GetBestWorstExpense(users: seq<User>, records: seq<Record>, authUserId: Option<string>, fetchFails: bool)
    : (r: RangeResult)
    ensures r.error.Some? <==> r.bestExpense.None?
    ensures r.bestExpense.None? <==> r.worstExpense.None?
    ensures r.error.None? ==> r.worstExpense.value <= r.bestExpense.value
    ensures r.error == if ResolveOwner(users, authUserId).Err? then Some(ResolveOwner(users, authUserId).error)
                       else if fetchFails then Some(DatabaseError) else None
  {
    match ResolveOwner(users, authUserId)
    case Err(e) => RangeResult(None, None, Some(e))
    case Ok(owner) =>
      if fetchFails then RangeResult(None, None, Some(DatabaseError))
      else
        var amounts := Amounts(RecordsOf(records, owner.id));
        if |amounts| == 0 then RangeResult(Some(0.0), Some(0.0), None)
        else RangeResult(Some(Max(amounts)), Some(Min(amounts)), None)
  }

  /** For an owner with records, the result is the largest and the smallest
      of their amounts. */
  lemma RangeOfOwned(users: seq<User>, records: seq<Record>, authUserId: Option<string>)
    requires ResolveOwner(users, authUserId).Ok?
    requires RecordsOf(records, ResolveOwner(users, authUserId).value.id) != []
    ensures var a := Amounts(RecordsOf(records, ResolveOwner(users, authUserId).value.id));
            GetBestWorstExpense(users, records, authUserId, false) == RangeResult(Some(Max(a)), Some(Min(a)), None)
  {
  }

  /** For an owner with records, best and worst are amounts of two of those
      records, and every record's amount lies between them. */
  lemma BestWorstAreExtremes(users: seq<User>, records: seq<Record>, authUserId: Option<string>)
    requires ResolveOwner(users, authUserId).Ok?
    requires RecordsOf(records, ResolveOwner(users, authUserId).value.id) != []
    ensures var owned := RecordsOf(records, ResolveOwner(users, authUserId).value.id);
            var r := GetBestWorstExpense(users, records, authUserId, false);
            && (exists x :: x in owned && x.amount == r.bestExpense.value)
            && (exists x :: x in owned && x.amount == r.worstExpense.value)
            && (forall x :: x in owned ==> r.worstExpense.value <= x.amount <= r.bestExpense.value)
  {
    var owned := RecordsOf(records, ResolveOwner(users, authUserId).value.id);
    var a := Amounts(owned);
    var hi, lo := Max(a), Min(a);
    var i :| 0 <= i < |a| && a[i] == hi;
    assert owned[i] in owned && owned[i].amount == hi;
    var j :| 0 <= j < |a| && a[j] == lo;
    assert owned[j] in owned && owned[j].amount == lo;
    forall x | x in owned ensures lo <= x.amount <= hi {
      var k :| 0 <= k < |owned| && owned[k] == x;
      assert a[k] == x.amount;
    }
  }

  /** With no records the result is the 0 / 0 sentinel. */
  lemma NoRecordsGivesZeroSentinel(users: seq<User>, records: seq<Record>, authUserId: Option<string>)
    requires ResolveOwner(users, authUserId).Ok?
    requires RecordsOf(records, ResolveOwner(users, authUserId).value.id) == []
    ensures GetBestWorstExpense(users, records, authUserId, false) == RangeResult(Some(0.0), Some(0.0), None)
  {
  }

  /** In a consistent store every amount is positive, so a best expense of 0
      occurs exactly when the owner has no records. */
  lemma ZeroMeansNoRecords(users: seq<User>, records: seq<Record>, authUserId: Option<string>)
    requires ResolveOwner(users, authUserId).Ok?
    requires forall i :: 0 <= i < |records| ==> AcceptableRecord(records[i])
    ensures GetBestWorstExpense(users, records, authUserId, false).bestExpense == Some(0.0)
        <==> RecordsOf(records, ResolveOwner(users, authUserId).value.id) == []
  {
    var owned := RecordsOf(records, ResolveOwner(users, authUserId).value.id);
    if owned != [] {
      BestWorstAreExtremes(users, records, authUserId);
      var x := owned[0];
      assert x in records;
      var i :| 0 <= i < |records| && records[i] == x;
      assert AcceptableRecord(records[i]);
    }
  }
}
