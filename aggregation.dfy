/**
 * The projection `fetchCustomers` applies to the store's answer: each customer
 * row, with the check-in rows joined to it, becomes a customer with a visit
 * count, the time of the latest visit and a reward flag. Timestamps are
 * integers (milliseconds).
 */
module Aggregation {
  import opened Wrappers

  /** A `checkins` row. */
  datatype Checkin = Checkin(id: string, customerId: Option<string>, staffUserId: Option<string>, checkinTime: int)

  /** A `customers` row as selected, with its joined check-ins (`customer.checkins`, possibly absent). */
  datatype CustomerRow = CustomerRow(id: string, phone: string, createdAt: int, checkins: Option<seq<Checkin>>)

  /** The processed customer handed to the page. */
  datatype CustomerView = CustomerView(id: string, phone: string, createdAt: int, visits: nat, lastVisit: int, rewardEarned: bool)

  /** Visits needed before `rewardEarned` is set. */
  const RewardVisits: nat := 5

  /** The check-ins joined to a row, none when the field is absent. */
  function CheckinsOf(row: CustomerRow): seq<Checkin> {
    row.checkins.GetOr([])
  }

  /**
   * `customer.checkins.sort(latest first)[0]`: a check-in no other check-in is
   * later than. (The sort is stable, so it is the first such in row order.)
   */
  function Latest(cs: seq<Checkin>): (r: Checkin)
    requires |cs| > 0
    ensures r in cs
    ensures forall i :: 0 <= i < |cs| ==> cs[i].checkinTime <= r.checkinTime
  {
    if |cs| == 1 then cs[0]
    else
      var later := Latest(cs[1..]);
      if cs[0].checkinTime >= later.checkinTime then cs[0] else later
  }

  /** The mapping applied to one row. */
  function Aggregate(row: CustomerRow): (r: CustomerView)
    ensures r.id == row.id && r.phone == row.phone && r.createdAt == row.createdAt
    ensures r.visits == |CheckinsOf(row)|
    ensures row.checkins.None? ==> r.visits == 0
    ensures |CheckinsOf(row)| == 0 ==> r.lastVisit == row.createdAt
    ensures |CheckinsOf(row)| > 0 ==>
      && (exists i :: 0 <= i < |CheckinsOf(row)| && CheckinsOf(row)[i].checkinTime == r.lastVisit)
      && (forall i :: 0 <= i < |CheckinsOf(row)| ==> CheckinsOf(row)[i].checkinTime <= r.lastVisit)
    ensures r.rewardEarned <==> r.visits >= RewardVisits
  {
    var checkins := CheckinsOf(row);
    var visits := |checkins|;
    var lastVisit := if visits > 0 then Latest(checkins).checkinTime else row.createdAt;
    CustomerView(row.id, row.phone, row.createdAt, visits, lastVisit, visits >= RewardVisits)
  }

  /** `rows.map(customer => ...)`: one view per row, in row order. */
  function AggregateRows(rows: seq<CustomerRow>): (r: seq<CustomerView>)
    ensures |r| == |rows|
    ensures forall i :: 0 <= i < |rows| ==> r[i] == Aggregate(rows[i])
  {
    if |rows| == 0 then [] else [Aggregate(rows[0])] + AggregateRows(rows[1..])
  }

  /** `data?.map(...) || []`: no result set gives no customers. */
  function ProcessCustomers(data: Option<seq<CustomerRow>>): (r: seq<CustomerView>)
    ensures data.None? ==> r == []
    ensures data.Some? ==> |r| == |data.value|
    ensures data.Some? ==> forall i :: 0 <= i < |r| ==>
      && r[i].id == data.value[i].id
      && r[i].phone == data.value[i].phone
      && r[i].createdAt == data.value[i].createdAt
      && r[i].visits == |CheckinsOf(data.value[i])|
    ensures data.Some? ==> forall i :: 0 <= i < |r| ==> r[i] == Aggregate(data.value[i])
  {
    match data
    case None => []
    case Some(rows) => AggregateRows(rows)
  }

  /** The latest time of a list with one more check-in at the end. */
  lemma {:induction false} LatestAppend(cs: seq<Checkin>, e: Checkin)
    requires |cs| > 0
    ensures Latest(cs + [e]).checkinTime ==
      if e.checkinTime > Latest(cs).checkinTime then e.checkinTime else Latest(cs).checkinTime
  {
    if |cs| > 1 {
      assert (cs + [e])[1..] == cs[1..] + [e];
      LatestAppend(cs[1..], e);
    } else {
      assert (cs + [e])[1..] == [e];
    }
  }

  /** The latest time depends only on which check-ins there are, not on their order. */
  lemma LatestTimeOrderFree(a: seq<Checkin>, b: seq<Checkin>)
    requires |a| > 0 && multiset(a) == multiset(b)
    ensures |b| > 0
    ensures Latest(a).checkinTime == Latest(b).checkinTime
  {
    assert |b| == |multiset(b)| == |multiset(a)| == |a|;
    var x, y := Latest(a), Latest(b);
    assert x in multiset(b);
    assert y in multiset(a);
    var i :| 0 <= i < |b| && b[i] == x;
    var j :| 0 <= j < |a| && a[j] == y;
  }

  /**
   * Recording one more check-in for a customer: one more visit, the latest
   * visit moves to the new check-in's time if it is later, and a reward once
   * earned stays earned.
   */
  lemma AddCheckin(row: CustomerRow, e: Checkin)
    ensures var after := Aggregate(row.(checkins := Some(CheckinsOf(row) + [e])));
      && after.visits == Aggregate(row).visits + 1
      && after.lastVisit ==
           (if |CheckinsOf(row)| == 0 || e.checkinTime > Aggregate(row).lastVisit
            then e.checkinTime else Aggregate(row).lastVisit)
      && (Aggregate(row).rewardEarned ==> after.rewardEarned)
  {
    var cs := CheckinsOf(row);
    if |cs| > 0 {
      LatestAppend(cs, e);
    } else {
      assert cs + [e] == [e];
    }
  }

  /** The reward flag never goes from set to clear as visits grow. */
  lemma RewardEarnedMonotone(a: CustomerRow, b: CustomerRow)
    requires |CheckinsOf(a)| <= |CheckinsOf(b)|
    ensures Aggregate(a).rewardEarned ==> Aggregate(b).rewardEarned
  {
  }
}
