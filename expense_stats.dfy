/** The figures the statistics panel derives from the two aggregate actions:
    the average, the number of days it claims to be based on, and what the
    Highest and Lowest tiles show. */
module ExpenseStats {
  import opened Results
  import opened Aggregates
  import opened Store
  import opened UserRecord
  import opened BestWorst

  /** `record || 0`. */
  function ValidTotal(record: Option<real>): (t: real)
    ensures record.None? ==> t == 0.0
    ensures record.Some? ==> t == record.value
  {
    if record.Some? && record.value != 0.0 then record.value else 0.0
  }

  /** `daysWithRecords && daysWithRecords > 0 ? daysWithRecords : 1`. */
  function ValidDays(daysWithRecords: Option<nat>): (d: nat)
    ensures d >= 1
    ensures daysWithRecords.Some? && daysWithRecords.value > 0 ==> d == daysWithRecords.value
    ensures daysWithRecords.None? || daysWithRecords.value == 0 ==> d == 1
  {
    if daysWithRecords.Some? && daysWithRecords.value > 0 then daysWithRecords.value else 1
  }

  /** What a Highest or Lowest tile shows: an amount in rupees, or "No data". */
  datatype Tile = Rupees(amount: real) | NoData

  /** `value !== undefined ? ₹value : 'No data'`. */
  function TileFor(value: Option<real>): (t: Tile)
    ensures t == NoData <==> value.None?
    ensures value.Some? ==> t == Rupees(value.value)
  {
    if value.Some? then Rupees(value.value) else NoData
  }

  datatype StatsView = StatsView(average: real, basedOnDays: nat, highest: Tile, lowest: Tile)

  /** The panel for the two results the actions returned. */
  function Stats(userRecord: UserRecordResult, range: RangeResult): (v: StatsView)
    ensures v.basedOnDays == ValidDays(userRecord.daysWithRecords) && v.basedOnDays >= 1
    ensures v.average * v.basedOnDays as real == ValidTotal(userRecord.record)
    ensures v.highest == TileFor(range.bestExpense) && v.lowest == TileFor(range.worstExpense)
  {
    var days := ValidDays(userRecord.daysWithRecords);
    StatsView(ValidTotal(userRecord.record) / days as real, days, TileFor(range.bestExpense), TileFor(range.worstExpense))
  }

  /** When the total action fails, the panel shows an average of 0 based on
      1 day rather than an error. */
  lemma FailedTotalShowsZero(users: seq<User>, records: seq<Record>, authUserId: Option<string>, fetchFails: bool, range: RangeResult)
    requires GetUserRecord(users, records, authUserId, fetchFails).error.Some?
    ensures var v := Stats(GetUserRecord(users, records, authUserId, fetchFails), range);
            v.average == 0.0 && v.basedOnDays == 1
  {
  }

  /** "No data" appears exactly when the range action failed; an empty store
      shows its 0 / 0 sentinel as amounts. */
  lemma NoDataOnlyOnError(users: seq<User>, records: seq<Record>, authUserId: Option<string>, fetchFails: bool, u: UserRecordResult)
    ensures var range := GetBestWorstExpense(users, records, authUserId, fetchFails);
            var v := Stats(u, range);
            (v.highest == NoData <==> range.error.Some?) && (v.lowest == NoData <==> range.error.Some?)
  {
  }

  /** A signed-in user with no records sees an average of 0 based on 1 day and
      tiles of ₹0. */
  lemma EmptyStoreShowsZeros(users: seq<User>, records: seq<Record>, authUserId: Option<string>)
    requires ResolveOwner(users, authUserId).Ok?
    requires RecordsOf(records, ResolveOwner(users, authUserId).value.id) == []
    ensures Stats(GetUserRecord(users, records, authUserId, false), GetBestWorstExpense(users, records, authUserId, false))
         == StatsView(0.0, 1, Rupees(0.0), Rupees(0.0))
  {
  }

  /** In a consistent store a user with records sees an average over exactly
      their number of records, the largest and the smallest of their amounts
      on the Highest and Lowest tiles, and the average between the two. */
  lemma AverageBetweenLowestAndHighest(users: seq<User>, records: seq<Record>, authUserId: Option<string>)
    requires ResolveOwner(users, authUserId).Ok?
    requires forall i :: 0 <= i < |records| ==> AcceptableRecord(records[i])
    requires RecordsOf(records, ResolveOwner(users, authUserId).value.id) != []
    ensures var owned := RecordsOf(records, ResolveOwner(users, authUserId).value.id);
            var v := Stats(GetUserRecord(users, records, authUserId, false), GetBestWorstExpense(users, records, authUserId, false));
            && v.basedOnDays == |owned|
            && v.average == Sum(Amounts(owned)) / |owned| as real
            && v.highest == Rupees(Max(Amounts(owned))) && v.lowest == Rupees(Min(Amounts(owned)))
            && v.lowest.amount <= v.average <= v.highest.amount
  {
    var owned := RecordsOf(records, ResolveOwner(users, authUserId).value.id);
    var a := Amounts(owned);
    DaysCountRecords(users, records, authUserId);
    UserRecordTotals(users, records, authUserId);
    RangeOfOwned(users, records, authUserId);
    MeanWithinBounds(a, Min(a), Max(a));
  }
}
