/**
 * The check-in dashboard's in-memory customer list: the tallies shown on the
 * analytics tab, the descending sort behind "Most Loyal Customers", and the
 * check-in transition together with the notification it raises.
 */
module Dashboard {
  import opened Wrappers
  import opened Arrays
  import opened Phone
  import opened Rewards

  /** A dashboard customer; `lastVisit` is a timestamp in milliseconds, an absent `rewardEarned` is `false`. */
  datatype Customer = Customer(id: string, phone: string, visits: nat, lastVisit: int, rewardEarned: bool)

  /** The notification a check-in raises. */
  datatype Notice =
    | PhoneRequired                  // empty phone field
    | RewardEarned(rule: RewardRule) // returning customer reached a threshold
    | VisitLogged(visits: nat)       // returning customer, no threshold reached
    | NewCustomerAdded               // first visit of an unknown phone

  /** No two customers share a phone number. */
  ghost predicate PhonesUnique(cs: seq<Customer>) {
    forall i, j :: 0 <= i < j < |cs| ==> cs[i].phone != cs[j].phone
  }

  /** Some customer has phone `p`. */
  ghost predicate HasPhone(cs: seq<Customer>, p: string) {
    exists i :: 0 <= i < |cs| && cs[i].phone == p
  }

  /** `customers.reduce((sum, c) => sum + c.visits, 0)`: the visits of all customers added up. */
  function TotalVisits(cs: seq<Customer>): (t: nat)
    ensures forall i :: 0 <= i < |cs| ==> cs[i].visits <= t
    ensures t == 0 <==> forall i :: 0 <= i < |cs| ==> cs[i].visits == 0
  {
    if |cs| == 0 then 0 else cs[0].visits + TotalVisits(cs[1..])
  }

  /** `customers.filter(c => c.rewardEarned).length`. */
  function TotalRewards(cs: seq<Customer>): (n: nat)
    ensures n <= |cs|
  {
    if |cs| == 0 then 0 else (if cs[0].rewardEarned then 1 else 0) + TotalRewards(cs[1..])
  }

  /** Appending a customer adds its visits to the total and its flag to the reward count. */
  lemma {:induction false} TotalsAppend(cs: seq<Customer>, c: Customer)
    ensures TotalVisits(cs + [c]) == TotalVisits(cs) + c.visits
    ensures TotalRewards(cs + [c]) == TotalRewards(cs) + (if c.rewardEarned then 1 else 0)
  {
    if |cs| > 0 {
      assert (cs + [c])[1..] == cs[1..] + [c];
      TotalsAppend(cs[1..], c);
    }
  }

  /** Raising one customer's visits by one, and no one else's, raises the total by one. */
  lemma {:induction false} TotalVisitsBump(before: seq<Customer>, after: seq<Customer>, k: nat)
    requires |before| == |after| && k < |before|
    requires after[k].visits == before[k].visits + 1
    requires forall i :: 0 <= i < |before| && i != k ==> after[i].visits == before[i].visits
    ensures TotalVisits(after) == TotalVisits(before) + 1
  {
    if k == 0 {
      TotalVisitsSame(before[1..], after[1..]);
    } else {
      TotalVisitsBump(before[1..], after[1..], k - 1);
    }
  }

  /** Lists with the same visit counts position by position have the same total. */
  lemma {:induction false} TotalVisitsSame(before: seq<Customer>, after: seq<Customer>)
    requires |before| == |after|
    requires forall i :: 0 <= i < |before| ==> after[i].visits == before[i].visits
    ensures TotalVisits(after) == TotalVisits(before)
  {
    if |before| > 0 {
      TotalVisitsSame(before[1..], after[1..]);
    }
  }

  /** Lists with the same reward flags position by position have the same reward count. */
  lemma {:induction false} TotalRewardsSame(before: seq<Customer>, after: seq<Customer>)
    requires |before| == |after|
    requires forall i :: 0 <= i < |before| ==> after[i].rewardEarned == before[i].rewardEarned
    ensures TotalRewards(after) == TotalRewards(before)
  {
    if |before| > 0 {
      TotalRewardsSame(before[1..], after[1..]);
    }
  }

  // ---------------------------------------------------------------------------
  // `customers.sort((a, b) => b.visits - a.visits)`: a stable sort, most visits first.

  /** Most visits first. */
  ghost predicate SortedByVisits(cs: seq<Customer>) {
    forall i, j :: 0 <= i < j < |cs| ==> cs[i].visits >= cs[j].visits
  }

  /**
   * Inserts `c` before the first customer with no more visits than `c`; as `c`
   * came first in the input, ties keep their input order.
   */
  function Insert(c: Customer, sorted: seq<Customer>): (r: seq<Customer>)
    ensures |r| == |sorted| + 1
  {
    if |sorted| == 0 then [c]
    else if c.visits >= sorted[0].visits then [c] + sorted
    else [sorted[0]] + Insert(c, sorted[1..])
  }

  /** The comparator sort, by insertion from the back of the list. */
  function SortByVisits(cs: seq<Customer>): (r: seq<Customer>)
    ensures |r| == |cs|
  {
    if |cs| == 0 then [] else Insert(cs[0], SortByVisits(cs[1..]))
  }

  /** Insertion adds exactly `c`. */
  lemma {:induction false} InsertPermutes(c: Customer, sorted: seq<Customer>)
    ensures multiset(Insert(c, sorted)) == multiset(sorted) + multiset{c}
  {
    if |sorted| > 0 && c.visits < sorted[0].visits {
      InsertPermutes(c, sorted[1..]);
      assert sorted == [sorted[0]] + sorted[1..];
    }
  }

  /** Inserting below a bound every element already respects stays below it. */
  lemma {:induction false} InsertBounded(c: Customer, sorted: seq<Customer>, bound: nat)
    requires c.visits <= bound
    requires forall i :: 0 <= i < |sorted| ==> sorted[i].visits <= bound
    ensures forall i :: 0 <= i < |Insert(c, sorted)| ==> Insert(c, sorted)[i].visits <= bound
  {
    if |sorted| > 0 && c.visits < sorted[0].visits {
      InsertBounded(c, sorted[1..], bound);
    }
  }

  /** Insertion into a sorted list keeps it sorted. */
  lemma {:induction false} InsertSorted(c: Customer, sorted: seq<Customer>)
    requires SortedByVisits(sorted)
    ensures SortedByVisits(Insert(c, sorted))
  {
    if |sorted| > 0 && c.visits < sorted[0].visits {
      var tail := sorted[1..];
      InsertSorted(c, tail);
      InsertBounded(c, tail, sorted[0].visits);
      var rest := Insert(c, tail);
      var r := Insert(c, sorted);
      assert r == [sorted[0]] + rest;
      forall i, j | 0 <= i < j < |r| ensures r[i].visits >= r[j].visits {
        assert r[j] == rest[j - 1];
        if i > 0 {
          assert r[i] == rest[i - 1];
        }
      }
    }
  }

  /** The sort is a permutation of its input. */
  lemma {:induction false} SortPermutes(cs: seq<Customer>)
    ensures multiset(SortByVisits(cs)) == multiset(cs)
  {
    if |cs| > 0 {
      SortPermutes(cs[1..]);
      InsertPermutes(cs[0], SortByVisits(cs[1..]));
      assert cs == [cs[0]] + cs[1..];
    }
  }

  /** The sort puts the most visits first. */
  lemma {:induction false} SortSorted(cs: seq<Customer>)
    ensures SortedByVisits(SortByVisits(cs))
  {
    if |cs| > 0 {
      SortSorted(cs[1..]);
      InsertSorted(cs[0], SortByVisits(cs[1..]));
    }
  }

  /**
   * A list already ordered by descending visits is left exactly as it is, ties
   * included: sorting the state again on a later render changes nothing.
   */
  lemma {:induction false} SortIdempotent(cs: seq<Customer>)
    requires SortedByVisits(cs)
    ensures SortByVisits(cs) == cs
  {
    if |cs| > 0 {
      var tail := cs[1..];
      assert SortedByVisits(tail) by {
        forall i, j | 0 <= i < j < |tail| ensures tail[i].visits >= tail[j].visits {
          assert tail[i] == cs[i + 1] && tail[j] == cs[j + 1];
        }
      }
      SortIdempotent(tail);
      assert cs == [cs[0]] + tail;
    }
  }

  /** The customers with exactly `v` visits, in list order. */
  function WithVisits(cs: seq<Customer>, v: nat): seq<Customer> {
    if |cs| == 0 then []
    else (if cs[0].visits == v then [cs[0]] else []) + WithVisits(cs[1..], v)
  }

  /**
   * Every customer `Insert` steps over has more visits than `c`, so `c` comes
   * first among the customers with its visit count.
   */
  lemma {:induction false} InsertStable(c: Customer, sorted: seq<Customer>, v: nat)
    ensures WithVisits(Insert(c, sorted), v) ==
      (if c.visits == v then [c] else []) + WithVisits(sorted, v)
  {
    var r := Insert(c, sorted);
    if |sorted| > 0 && c.visits < sorted[0].visits {
      InsertStable(c, sorted[1..], v);
      assert r[0] == sorted[0] && r[1..] == Insert(c, sorted[1..]);
    } else {
      assert r[0] == c && r[1..] == sorted;
    }
  }

  /**
   * The sort is stable: for every visit count, the customers with that count
   * appear in the same order before and after sorting.
   */
  lemma {:induction false} SortStable(cs: seq<Customer>, v: nat)
    ensures WithVisits(SortByVisits(cs), v) == WithVisits(cs, v)
  {
    if |cs| > 0 {
      SortStable(cs[1..], v);
      InsertStable(cs[0], SortByVisits(cs[1..]), v);
    }
  }

  /** Two sequences with the same elements (counted) agree on membership. */
  lemma SameMembers(a: seq<Customer>, b: seq<Customer>, x: Customer)
    requires multiset(a) == multiset(b)
    ensures x in a <==> x in b
  {
    assert x in a <==> x in multiset(a);
    assert x in b <==> x in multiset(b);
  }

  /** Inserting a customer into a list none of whose phones is `p` adds no customer with phone `p` but `c`. */
  lemma {:induction false} InsertAvoidsPhone(c: Customer, sorted: seq<Customer>, p: string)
    requires c.phone != p
    requires forall i :: 0 <= i < |sorted| ==> sorted[i].phone != p
    ensures forall i :: 0 <= i < |Insert(c, sorted)| ==> Insert(c, sorted)[i].phone != p
  {
    if |sorted| > 0 && c.visits < sorted[0].visits {
      InsertAvoidsPhone(c, sorted[1..], p);
    }
  }

  /** Inserting a customer whose phone is new keeps phones unique. */
  lemma {:induction false} InsertKeepsPhonesUnique(c: Customer, sorted: seq<Customer>)
    requires PhonesUnique(sorted)
    requires !HasPhone(sorted, c.phone)
    ensures PhonesUnique(Insert(c, sorted))
  {
    if |sorted| > 0 && c.visits < sorted[0].visits {
      var tail := sorted[1..];
      assert PhonesUnique(tail) by {
        forall i, j | 0 <= i < j < |tail| ensures tail[i].phone != tail[j].phone {
          assert tail[i] == sorted[i + 1] && tail[j] == sorted[j + 1];
        }
      }
      assert !HasPhone(tail, c.phone) by {
        forall i | 0 <= i < |tail| ensures tail[i].phone != c.phone {
          assert tail[i] == sorted[i + 1];
        }
      }
      InsertKeepsPhonesUnique(c, tail);
      forall i | 0 <= i < |tail| ensures tail[i].phone != sorted[0].phone {
        assert tail[i] == sorted[i + 1];
      }
      assert c.phone != sorted[0].phone;
      InsertAvoidsPhone(c, tail, sorted[0].phone);
      var rest := Insert(c, tail);
      var r := Insert(c, sorted);
      assert r == [sorted[0]] + rest;
      forall i, j | 0 <= i < j < |r| ensures r[i].phone != r[j].phone {
        assert r[j] == rest[j - 1];
        if i > 0 {
          assert r[i] == rest[i - 1];
        }
      }
    }
  }

  /** Sorting keeps phones unique. */
  lemma {:induction false} SortKeepsPhonesUnique(cs: seq<Customer>)
    requires PhonesUnique(cs)
    ensures PhonesUnique(SortByVisits(cs))
  {
    if |cs| > 0 {
      var tail := cs[1..];
      assert PhonesUnique(tail) by {
        forall i, j | 0 <= i < j < |tail| ensures tail[i].phone != tail[j].phone {
          assert tail[i] == cs[i + 1] && tail[j] == cs[j + 1];
        }
      }
      SortKeepsPhonesUnique(tail);
      var sortedTail := SortByVisits(tail);
      SortPermutes(tail);
      forall i | 0 <= i < |sortedTail| ensures sortedTail[i].phone != cs[0].phone {
        var x := sortedTail[i];
        SameMembers(sortedTail, tail, x);
        var j :| 0 <= j < |tail| && tail[j] == x;
        assert cs[j + 1] == x;
      }
      InsertKeepsPhonesUnique(cs[0], sortedTail);
    }
  }

  /** Inserting a customer adds its visits to the total and its flag to the reward count. */
  lemma {:induction false} InsertTotals(c: Customer, sorted: seq<Customer>)
    ensures TotalVisits(Insert(c, sorted)) == TotalVisits(sorted) + c.visits
    ensures TotalRewards(Insert(c, sorted)) == TotalRewards(sorted) + (if c.rewardEarned then 1 else 0)
  {
    if |sorted| > 0 && c.visits < sorted[0].visits {
      InsertTotals(c, sorted[1..]);
      var r := Insert(c, sorted);
      assert r[1..] == Insert(c, sorted[1..]);
    } else {
      var r := Insert(c, sorted);
      assert r[1..] == sorted;
    }
  }

  /** Sorting changes neither tally. */
  lemma {:induction false} SortKeepsTotals(cs: seq<Customer>)
    ensures TotalVisits(SortByVisits(cs)) == TotalVisits(cs)
    ensures TotalRewards(SortByVisits(cs)) == TotalRewards(cs)
  {
    if |cs| > 0 {
      SortKeepsTotals(cs[1..]);
      InsertTotals(cs[0], SortByVisits(cs[1..]));
    }
  }

  /**
   * The `customers.map(...)` of a returning customer's check-in: every customer
   * with phone `phone` gains a visit dated `now`.
   */
  function LogVisit(cs: seq<Customer>, phone: string, now: int): (r: seq<Customer>)
    ensures |r| == |cs|
    ensures forall i :: 0 <= i < |cs| ==>
      && r[i].id == cs[i].id && r[i].phone == cs[i].phone && r[i].rewardEarned == cs[i].rewardEarned
      && r[i].visits == cs[i].visits + (if cs[i].phone == phone then 1 else 0)
    ensures forall i :: 0 <= i < |cs| && cs[i].phone == phone ==> r[i].lastVisit == now
    ensures forall i :: 0 <= i < |cs| && cs[i].phone != phone ==> r[i] == cs[i]
  {
    seq(|cs|, i requires 0 <= i < |cs| =>
      if cs[i].phone == phone then cs[i].(visits := cs[i].visits + 1, lastVisit := now) else cs[i])
  }

  /** Logging a visit changes no phone, so phones stay unique. */
  lemma LogVisitKeepsPhonesUnique(cs: seq<Customer>, phone: string, now: int)
    requires PhonesUnique(cs)
    ensures PhonesUnique(LogVisit(cs, phone, now))
  {
    var r := LogVisit(cs, phone, now);
    forall i, j | 0 <= i < j < |r| ensures r[i].phone != r[j].phone {
      assert r[i].phone == cs[i].phone && r[j].phone == cs[j].phone;
    }
  }

  // ---------------------------------------------------------------------------

  /** The dashboard page's customer state. */
  class LoyaltyDashboard {
    var customers: seq<Customer>

    /** Phone numbers identify customers. */
    ghost predicate Valid()
      reads this
    {
      PhonesUnique(customers)
    }

    /** The three demonstration customers the page starts with. */
    constructor ()
      ensures Valid()
      ensures customers == [
        Customer("1", "(555) 123-4567", 7, 1716595200000, false),
        Customer("2", "(555) 987-6543", 3, 1716508800000, false),
        Customer("3", "(555) 456-7890", 10, 1716422400000, true)
      ]
    {
      customers := [
        Customer("1", "(555) 123-4567", 7, 1716595200000, false),
        Customer("2", "(555) 987-6543", 3, 1716508800000, false),
        Customer("3", "(555) 456-7890", 10, 1716422400000, true)
      ];
    }

    /**
     * `handleCheckin` for the typed `phone`, with `id` standing for
     * `Date.now().toString()` and `now` for `new Date()`.
     */
    method CheckIn(phone: string, id: string, now: int) returns (notice: Notice)
      requires Valid()
      modifies this
      ensures Valid()
      // an empty field changes nothing
      ensures phone == "" ==> customers == old(customers) && notice == PhoneRequired
      // a known phone: that customer gains a visit, everyone else is untouched
      ensures phone != "" && HasPhone(old(customers), FormatPhone(phone)) ==>
        && |customers| == |old(customers)|
        && (forall i :: 0 <= i < |customers| && old(customers)[i].phone != FormatPhone(phone) ==>
              customers[i] == old(customers)[i])
        && (forall i :: 0 <= i < |customers| && old(customers)[i].phone == FormatPhone(phone) ==>
              && customers[i].id == old(customers)[i].id
              && customers[i].phone == old(customers)[i].phone
              && customers[i].rewardEarned == old(customers)[i].rewardEarned
              && customers[i].visits == old(customers)[i].visits + 1
              && customers[i].lastVisit == now
              && notice == match EarnedReward(customers[i].visits)
                           case Some(rule) => RewardEarned(rule)
                           case None => VisitLogged(customers[i].visits))
      // an unknown phone: one new customer at the end
      ensures phone != "" && !HasPhone(old(customers), FormatPhone(phone)) ==>
        && customers == old(customers) + [Customer(id, FormatPhone(phone), 1, now, false)]
        && notice == NewCustomerAdded
      ensures TotalVisits(customers) == TotalVisits(old(customers)) + (if phone == "" then 0 else 1)
      ensures TotalRewards(customers) == TotalRewards(old(customers))
    {
      if phone == "" {
        return PhoneRequired;
      }
      var formatted := FormatPhone(phone);
      var existing := FindFirst(customers, (c: Customer) => c.phone == formatted);
      match existing
      case Some(k) =>
        var before := customers;
        customers := LogVisit(before, formatted, now);
        var newVisits := before[k].visits + 1;
        notice := match EarnedReward(newVisits)
          case Some(rule) => RewardEarned(rule)
          case None => VisitLogged(newVisits);
        LogVisitKeepsPhonesUnique(before, formatted, now);
        forall i | 0 <= i < |before| && i != k ensures customers[i].visits == before[i].visits {
          assert before[i].phone != formatted;
        }
        TotalVisitsBump(before, customers, k);
        TotalRewardsSame(before, customers);
      case None =>
        var added := Customer(id, formatted, 1, now, false);
        TotalsAppend(customers, added);
        customers := customers + [added];
        notice := NewCustomerAdded;
    }

    /**
     * The "Most Loyal Customers" card: sorts the state list itself, most visits
     * first, and shows its first five entries.
     */
    method MostLoyal() returns (top: seq<Customer>)
      requires Valid()
      modifies this
      ensures Valid()
      ensures multiset(customers) == multiset(old(customers))
      ensures SortedByVisits(customers)
      ensures customers == SortByVisits(old(customers))
      ensures top == customers[..if |customers| < 5 then |customers| else 5]
      ensures forall i, j :: 0 <= i < |top| <= j < |customers| ==> top[i].visits >= customers[j].visits
      ensures forall v :: WithVisits(customers, v) == WithVisits(old(customers), v)
      ensures TotalVisits(customers) == TotalVisits(old(customers))
      ensures TotalRewards(customers) == TotalRewards(old(customers))
    {
      forall v ensures WithVisits(SortByVisits(customers), v) == WithVisits(customers, v) {
        SortStable(customers, v);
      }
      SortKeepsPhonesUnique(customers);
      SortKeepsTotals(customers);
      SortPermutes(customers);
      SortSorted(customers);
      customers := SortByVisits(customers);
      top := customers[..if |customers| < 5 then |customers| else 5];
    }
  }
}
