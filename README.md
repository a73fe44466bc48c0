# Salon loyalty tracker: check-in dashboard and customer aggregation

This project models the two pieces of loyalty logic in the salon visit-rewards
tracker and proves properties about them.

**The check-in dashboard** (`src/pages/Index.tsx`) keeps an in-memory list of
customers. The model covers five parts of it:

- **Phone formatting.** A typed phone number is reduced to its digits. Exactly
  ten digits are shown as `(DDD) DDD-DDDD`; any other input is kept as typed.
- **Check-in.** A check-in either gives the customer with that phone one more
  visit, or appends a new customer with one visit. It also decides which
  notification fires: phone required, reward earned, visit logged, or new
  customer added.
- **Reward rules.** Two fixed rules: 5 visits earn 10% off, 10 visits earn a
  free basic service. Three computations read them:
  - the reward announced on a check-in;
  - the next reward;
  - the progress percentage towards the next reward.
- **Tallies.** Total visits and total rewards.
- **Most loyal customers.** The customer list is sorted in place, most visits
  first, and the top five are shown.

The dashboard is the class `Dashboard.LoyaltyDashboard`. Its methods change
its `customers` field.

**The customer aggregation** (`src/hooks/useCustomers.ts`, `fetchCustomers`)
maps each stored customer row and its check-in rows to three values:

- a visit count;
- the time of the latest visit, or the customer's creation time when there are
  no check-ins;
- a reward flag, set from five visits on.

The model makes these behaviours of the code explicit:

- A malformed phone number is used as typed; it is not rejected.
- The next reward falls back to the last rule once every threshold is reached.
- Progress is `visits / threshold * 100` and is not capped, so 12 visits give
  120.
- When the first threshold is reached, progress falls from 80 to 50. It does
  not restart at 0.
- A reward is announced only when the new visit count equals a threshold.
- A dashboard check-in never sets `rewardEarned`, so the reward total never
  changes on a check-in. The aggregation, by contrast, derives the flag from
  the visit count.

Modules:

- `Wrappers`: an optional value.
- `Arrays`: `Array.prototype.find`.
- `Phone`: phone formatting.
- `Rewards`: the rules and the computations over them.
- `Dashboard`: customers, tallies, the sort and the dashboard class.
- `Aggregation`: the `fetchCustomers` projection.

Timestamps are integers (milliseconds). The current time and the new
customer's id are parameters of `CheckIn`: the code takes them from
`new Date()` and `Date.now()`.

## Model

| member | source | states |
|---|---|---|
| `Arrays.FindFirst` | src/pages/Index.tsx:61 | the index found is the first element satisfying the predicate; none is found exactly when no element satisfies it |
| `Phone.Digits` | src/pages/Index.tsx:42 | the stripped string contains only digits and is no longer than the input |
| `Phone.DigitsOfNonDigits` | src/pages/Index.tsx:42 | a string without digits strips to the empty string; with `DigitsConcat` and `DigitsOfDigits` this pins the stripped string down as the digits of the input, in order |
| `Phone.Canonical` | src/pages/Index.tsx:43-45 | the display form is 14 characters: `(`, the first three digits, `) `, the next three, `-`, the last four |
| `Phone.FormatPhone` | src/pages/Index.tsx:41-48 | with exactly ten digits the result is the 14-character `(DDD) DDD-DDDD` form, whose digits are exactly those of the input, in order; otherwise the input is returned unchanged |
| `Phone.DigitsConcat` | src/pages/Index.tsx:42 | stripping non-digits distributes over concatenation |
| `Phone.CanonicalDigits` | src/pages/Index.tsx:45 | the formatted number is 14 characters long and its digits are exactly the ten it was built from |
| `Phone.FormatPhoneIdempotent` | src/pages/Index.tsx:41-47 | formatting twice gives the same result as formatting once |
| `Phone.FormatPhoneCanonical` | src/pages/Index.tsx:41-45 | two inputs with the same ten digits format to the same number whatever their punctuation, and the result keeps those digits |
| `Rewards.RewardRulesAscending` | src/pages/Index.tsx:36-39 | there are two rules, at 5 and 10 visits, with strictly ascending positive thresholds |
| `Rewards.EarnedReward` | src/pages/Index.tsx:71-79 | a reward is found exactly when some rule's threshold equals the new visit count, and the rule found has that threshold |
| `Rewards.EarnedRewardExamples` | src/pages/Index.tsx:72 | 5 and 10 visits announce the two rules; 4, 6 and 11 announce nothing |
| `Rewards.NextReward` | src/pages/Index.tsx:104-106 | the result is the lowest rule above the visit count; when no rule is above it, the result is the last rule |
| `Rewards.NextRewardTiers` | src/pages/Index.tsx:36-39 | below 5 visits the next reward is the 5-visit rule; from 5 visits on it is the 10-visit rule |
| `Rewards.ProgressPercentage` | src/pages/Index.tsx:108-112 | progress is 20 per visit below the first threshold and 10 per visit from it on, without a cap |
| `Rewards.ProgressExamples` | src/pages/Index.tsx:108-112 | progress is 0, 80, 50, 100 and 120 at 0, 4, 5, 10 and 12 visits |
| `Rewards.ProgressUncapped` | src/pages/Index.tsx:111 | beyond 10 visits progress exceeds 100 |
| `Rewards.ProgressMonotoneWithinTier` | src/pages/Index.tsx:111 | while the next reward stays the same, more visits never give less progress |
| `Dashboard.TotalVisits` | src/pages/Index.tsx:114 | the total is at least each customer's visits, and is 0 exactly when no customer has a visit; `TotalsAppend` and `TotalVisitsBump` give its value after each change |
| `Dashboard.TotalRewards` | src/pages/Index.tsx:115 | the reward count is at most the number of customers |
| `Dashboard.TotalsAppend` | src/pages/Index.tsx:114-115 | appending a customer adds its visits to the visit total and its flag to the reward count |
| `Dashboard.TotalVisitsBump` | src/pages/Index.tsx:114 | one customer gaining one visit, and no one else changing, raises the visit total by exactly one |
| `Dashboard.TotalVisitsSame` | src/pages/Index.tsx:114 | equal visit counts position by position give equal totals |
| `Dashboard.TotalRewardsSame` | src/pages/Index.tsx:115 | equal reward flags position by position give equal reward counts |
| `Dashboard.LogVisit` | src/pages/Index.tsx:64-68 | the length is unchanged; every id, phone and reward flag is kept; a customer with the phone gains exactly one visit and its last visit becomes now; every other customer is unchanged |
| `Dashboard.LogVisitKeepsPhonesUnique` | src/pages/Index.tsx:64-68 | logging a visit keeps phones unique |
| `Dashboard.Insert` | src/pages/Index.tsx:355 | one insertion step of the comparator sort yields one more element; `InsertPermutes`, `InsertSorted` and `InsertStable` say which and where |
| `Dashboard.SortByVisits` | src/pages/Index.tsx:355 | the sort keeps the length; `SortPermutes`, `SortSorted` and `SortStable` state that it is a stable permutation ordered by descending visits |
| `Dashboard.InsertStable` | src/pages/Index.tsx:355 | the inserted customer comes first among those with its visit count, and the others with each count keep their order |
| `Dashboard.SortStable` | src/pages/Index.tsx:355 | for every visit count, the customers with that count appear in the same order before and after sorting |
| `Dashboard.InsertAvoidsPhone` | src/pages/Index.tsx:355 | insertion brings in no phone other than the inserted customer's |
| `Dashboard.InsertPermutes` | src/pages/Index.tsx:355 | one insertion step of the sort adds exactly the inserted customer |
| `Dashboard.InsertBounded` | src/pages/Index.tsx:355 | insertion leaves a bound on visits intact |
| `Dashboard.InsertSorted` | src/pages/Index.tsx:355 | insertion into a list ordered by descending visits keeps it ordered |
| `Dashboard.SortPermutes` | src/pages/Index.tsx:355 | the sort is a permutation of its input |
| `Dashboard.SortSorted` | src/pages/Index.tsx:355 | the sorted list has the most visits first |
| `Dashboard.SortIdempotent` | src/pages/Index.tsx:355 | a list already ordered by descending visits is left exactly as it is, ties included, so re-sorting the state on a later render changes nothing |
| `Dashboard.SortKeepsPhonesUnique` | src/pages/Index.tsx:355 | sorting keeps phones unique |
| `Dashboard.InsertKeepsPhonesUnique` | src/pages/Index.tsx:355 | inserting a customer whose phone is new keeps phones unique |
| `Dashboard.InsertTotals` | src/pages/Index.tsx:355 | insertion adds the customer's visits and its reward flag to the tallies |
| `Dashboard.SortKeepsTotals` | src/pages/Index.tsx:114-115 | sorting changes neither the visit total nor the reward count |
| `Dashboard.LoyaltyDashboard.constructor` | src/pages/Index.tsx:30-34 | the page starts with the three demonstration customers, whose phones are distinct |
| `Dashboard.LoyaltyDashboard.CheckIn` | src/pages/Index.tsx:50-102 | an empty phone changes nothing and asks for a phone. A known phone keeps the length; that customer's visits rise by one and its last visit becomes now; its id, phone and reward flag stay; everyone else is unchanged; a reward is announced exactly when the new count equals a threshold. An unknown phone appends one customer with one visit, the formatted phone and now. Phones stay unique, the visit total rises by exactly one, and the reward count is unchanged |
| `Dashboard.LoyaltyDashboard.MostLoyal` | src/pages/Index.tsx:354-356 | the state list becomes its own sort: a stable permutation ordered by descending visits (for every visit count, customers with that count keep their order), with phones unique and tallies unchanged. The card shows its first five entries, and no customer after them has more visits than any of them |
| `Aggregation.Latest` | src/hooks/useCustomers.ts:34-36 | the check-in chosen is one of the customer's check-ins, and no other check-in is later |
| `Aggregation.Aggregate` | src/hooks/useCustomers.ts:33-45 | id, phone and created_at are copied. Visits equals the number of joined check-ins, and is 0 when there are none. The last visit is the latest check-in time, or created_at without check-ins. The reward flag holds exactly when visits are at least five |
| `Aggregation.AggregateRows` | src/hooks/useCustomers.ts:32-46 | one view per row, in row order, each the mapping of its row |
| `Aggregation.ProcessCustomers` | src/hooks/useCustomers.ts:32-46 | a missing result set gives the empty list. Otherwise there is one entry per row, in order, with id, phone and created_at copied and visits counted, each entry being the row's full mapping (last visit and reward flag included) |
| `Aggregation.LatestAppend` | src/hooks/useCustomers.ts:34-36 | one more check-in makes the latest time the larger of the old latest time and the new check-in's time |
| `Aggregation.LatestTimeOrderFree` | src/hooks/useCustomers.ts:34-36 | the latest time does not depend on the order of the check-ins |
| `Aggregation.AddCheckin` | src/hooks/useCustomers.ts:33-44 | one more check-in gives one more visit, moves the last visit to the new time if it is later, and never clears an earned reward |
| `Aggregation.RewardEarnedMonotone` | src/hooks/useCustomers.ts:44 | more check-ins never clear the reward flag |

## Left out

- Store queries and writes are network I/O and are not modelled. This covers
  the Supabase select in `fetchCustomers`, `addCustomer`, `addCheckin` and
  `auth.getUser` (src/hooks/useCustomers.ts:22-29, 60-102).
- The store's `checkins!inner` join would drop customers without check-ins. It
  is store behaviour, so the model accepts any rows, including ones with no or
  absent check-ins, as the mapping code does.
- The error path of `fetchCustomers` is not modelled: the thrown error, the
  error toast and `setLoading`.
- React state, hooks, toast calls and JSX rendering are not modelled. Only the
  choice of notification is kept (the `Notice` returned by `CheckIn`).
- The phone input field is not modelled: its binding and its clearing after a
  check-in (src/pages/Index.tsx:101). The typed phone is a parameter of
  `CheckIn`.
- The per-customer progress bars and the "Recent Check-ins" list (first five
  entries) are rendering. They only call `NextReward` and `ProgressPercentage`.
- `Date.now()` and `new Date()` are clock reads. They are passed in as the
  `id` and `now` parameters.
- Dates are integers. Parsing `checkin_time` and `created_at` strings is not
  modelled, and neither is the ordering of null or invalid dates (NaN in the
  comparator).
- The progress percentage is a `real`, not a floating-point number. Visit
  counts are unbounded naturals.
- Aggregation.Latest: the in-place sort of the check-in array is not
  modelled. Only its first element is used, so the model computes a latest
  check-in directly.
- Several behaviours are not in the code and are not modelled:
  - rejecting malformed phone numbers;
  - lookup or creation per business;
  - retry on a uniqueness conflict;
  - progress that restarts at 0 for each tier;
  - "no next reward" once every tier is reached;
  - a set of unlocked tiers.

  The model follows the code in each of these.
