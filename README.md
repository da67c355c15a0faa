# Allcamp supply/demand analytics engine — a Dafny model

This project models the computational core of the Allcamp Streamlit dashboard
(`Allcamp_streamlit.py`). The dashboard reads three record sets: campgrounds
(facilities), booking transactions and search demand. From them it computes:

- **2028 proration.** Each non-cancelled booking's nights inside 2028, and the
  same share of its cost as revenue.
- **Monthly occupancy.** Per geographic cell, the site-nights a month of 2028
  offers against the site-nights booked. It can be restricted to a site
  category and to weekend days (Friday to Sunday).
- **Expansion scoring.** For the Southeast region, 2028 capacity and usage per
  cell and site type (RV, tent, structure), merged with search demand. General
  searchers are redistributed over the site types. Each type gets a shortfall
  ("mismatch") ratio, with the sentinel 10 for demand without supply.
- **Lost revenue.** The unfilled demand of the expansion table, priced at the
  region's observed conversion rate and nightly rate, then doubled for the
  average stay.

Modules, in dependency order:

| file | module | content |
|---|---|---|
| `dates.dfy` | `Options`, `Dates` | Optional values; day numbers, weekdays, months of 2028, the three overlap helpers |
| `records.dfy` | `Records` | Facility, booking and search records; the cancelled-booking filter |
| `aggregate.dfy` | `Aggregate` | Group-by sums, outer-join fill, the guarded occupancy ratio |
| `proration.dfy` | `Proration` | Revenue and night proration to a window, and the loop that fills the 2028 columns |
| `occupancy.dfy` | `Occupancy` | The monthly occupancy calculator |
| `expansion.dfy` | `Expansion` | The Southeast expansion/mismatch scorer |
| `lost_revenue.dfy` | `LostRevenue` | The lost-revenue estimator as a function of the expansion table and the region's totals |

How the model represents the source's data:

- **Dates** are integers counting days from 2028-01-01 (day 0). The analysis
  window is days 0 to 365, and 2099-12-31 is day 26297. The weekday is
  `(d + 5) % 7` with Monday = 0.
- **Dates that failed to parse** are `Option.None`.
- **A group-by sum** is a `map` from cell to total. The function `SumWhere` is
  its reference meaning.
- **An outer join** walks the distinct keys of both sides and fills a missing
  side with 0.
- **Money and rates** are exact `real`s.

The loops the source runs row by row are Dafny methods with loop
invariants, proved equal to the specification functions:

- the proration loop (`Proration.PartialRevenue2028`);
- the capacity and usage loops (`Occupancy.ComputeOccupancy`,
  `Expansion.ComputeExpansion`).

The day-by-day weekend counter is the method `Dates.CountWeekendDays`.

## Model

| member | source | states |
|---|---|---|
| Dates.NightsInOverlap | Allcamp_streamlit.py:166-172 | Nights of a stay inside a window, checkout exclusive. Never negative, 0 when a date is missing, at most the stay's length and at most the window's length. |
| Dates.TotalTripNights | Allcamp_streamlit.py:174-178 | Whole-stay nights are checkout minus checkin, and 0 when a date is missing. |
| Dates.DaysInOverlap | Allcamp_streamlit.py:516-520 | Shared days of two ranges inclusive at both ends. Never negative and at most either range's length. Positive exactly when the larger start is on or before the smaller end. |
| Dates.DaysInOverlapSymmetric | Allcamp_streamlit.py:516-520 | The inclusive overlap does not depend on which range is the window. |
| Dates.ConventionsAgree | Allcamp_streamlit.py:166-172 | The exclusive-checkout night count equals the inclusive day count of [checkin, checkout - 1]. |
| Dates.DaysLiveBound | Allcamp_streamlit.py:543-545 | A facility is live for 0 to 366 days of 2028. All 366 if it went live by 2028-01-01, 366 - d if it went live on day d of 2028, and 0 if later. |
| Dates.Weekday | Allcamp_streamlit.py:432 | Python's weekday() with Monday = 0: a value from 0 to 6, advancing by one each day (WeekdayStep) and matching the calendar on known dates (WeekdayOfKnownDates). |
| Dates.WeekendDaysBetween | Allcamp_streamlit.py:427-435 | The number of Friday, Saturday and Sunday days in [lo, hi): never negative and at most the length of the range. |
| Dates.CountWeekendDays | Allcamp_streamlit.py:427-432 | The day-by-day loop counts exactly the Friday, Saturday and Sunday days of [lo, hi). |
| Dates.WeekendDaysPerWeek | Allcamp_streamlit.py:430 | Any seven consecutive days hold exactly three weekend days. |
| Dates.WeekdayOfKnownDates | Allcamp_streamlit.py:430 | Python's weekday() of known dates: 2028-01-01 is a Saturday, 2027-12-30 and 2028-06-01 are Thursdays. |
| Dates.DaysInMonth | Allcamp_streamlit.py:388 | The month length is between 28 and 31 days. |
| Dates.MonthStart | Allcamp_streamlit.py:387 | Day number of the first of a month of 2028: never negative and at most 31 days per earlier month. |
| Dates.MonthEnd | Allcamp_streamlit.py:388-389 | Day number of a month's last day (monthrange): 27 to 30 days after the month's first day. |
| Dates.MonthsTileYear | Allcamp_streamlit.py:387-389 | Each month's [first day, last day] lies inside 2028, and consecutive months are adjacent. January starts the year and December ends it. |
| Dates.JuneWindow | Allcamp_streamlit.py:387-389 | June 2028 is days 152 to 181, and February 2028 has 29 days. |
| Records.ValidTransactions | Allcamp_streamlit.py:164 | Keeps every non-cancelled booking exactly as often as it occurs in the input and drops every cancelled one; no kept row is cancelled or new. |
| Records.CancelledIsDropped | Allcamp_streamlit.py:164 | Inserting a cancelled booking anywhere leaves the filtered list unchanged. |
| Aggregate.GroupSum | Allcamp_streamlit.py:437-443 | The group-by sum has an entry exactly for the keys that occur. Each entry is the total of that key's rows. |
| Aggregate.OccupancyRate | Allcamp_streamlit.py:484-488 | Occupancy is 0 without capacity and used over capacity otherwise. It is non-negative for non-negative usage and at most 1 when usage is at most capacity. |
| Aggregate.GroupingConserves | Allcamp_streamlit.py:437-443 | Over distinct cells covering every key, the group totals add up to the total of all rows. |
| Aggregate.SumWhereAdditive | Allcamp_streamlit.py:613-624 | If every row's three category values add up to its total, so do every group's totals. |
| Aggregate.SumWhereMonotone | Allcamp_streamlit.py:437-443 | Row-wise smaller values give smaller group totals. |
| Aggregate.Distinct | Allcamp_streamlit.py:483 | The outer join's key list has no duplicates and exactly the keys of its input. |
| Proration.PartialOf | Allcamp_streamlit.py:185-194 | A booking's prorated columns. The window nights are always the overlap count. When they are positive, the trip nights are the whole-stay count, the window nights never exceed them, and revenue × trip nights = nights × cost. When they are 0, all three columns are 0. |
| Proration.RevenueWithinCost | Allcamp_streamlit.py:189-192 | For a non-negative cost, the prorated revenue lies between 0 and the cost. |
| Proration.RevenueIsWholeCostIffInside | Allcamp_streamlit.py:189-192 | For a positive cost, the revenue is the whole cost exactly when the stay lies wholly inside the window. |
| Proration.NewYearStayExample | Allcamp_streamlit.py:185-194 | A $400 stay from 2027-12-30 to 2028-01-03 gives 2 of its 4 nights, and $200, to 2028. |
| Proration.PartialRevenue2028 | Allcamp_streamlit.py:164-194 | The loop over non-cancelled bookings leaves every row equal to its prorated columns. |
| Occupancy.SitesForCategory | Allcamp_streamlit.py:393-404 | The site count per category selector: tent-or-rv sums tent and RV sites, and an unknown selector falls back to all sites. |
| Occupancy.CapacityStart | Allcamp_streamlit.py:410-412 | The first day a facility can supply nights in the month: the later of its go-live date and the month's first day. |
| Occupancy.MonthCapacity | Allcamp_streamlit.py:415-435 | A facility's site-nights for the month, category and weekend flag: never negative; 0 when the facility offers no site of the category; positive only when its capacity start is within the month; at most a full month of every site. MonthCapacityProperties gives its exact value under both flags. |
| Occupancy.MonthCapacityProperties | Allcamp_streamlit.py:406-433 | Monthly capacity is never negative, and the weekend figure never exceeds it. It is 0 for a facility going live after the month or with no sites of the category. Otherwise it is the inclusive live days × sites, at most a full month × sites, and the weekend figure is the Friday/Saturday/Sunday count from max(go-live, month start) through the month's last day × sites. |
| Occupancy.JuneCapacityExample | Allcamp_streamlit.py:406-433 | Ten sites live since May offer 300 site-nights in June 2028, and 130 on weekends. |
| Occupancy.JuneWeekendDays | Allcamp_streamlit.py:427-432 | June 2028 has 13 Fridays, Saturdays and Sundays. |
| Occupancy.KeptTransactions | Allcamp_streamlit.py:446-451 | Keeps every booking with a checkout on or before the month's last day and, unless the selector is All, of the selected category, exactly as often as it occurs, and no other booking. |
| Occupancy.MonthUsage | Allcamp_streamlit.py:453-472 | A booking's used site-nights in the month, never negative. MonthUsageProperties relates it to the weekend figure and to the prorated nights. |
| Occupancy.MonthUsageProperties | Allcamp_streamlit.py:453-471 | Usage is never negative and weekend usage never exceeds plain usage. With both dates known, plain usage is the length of [max(checkin, month start), min(checkout, month end)) (0 if empty) and weekend usage is its Friday/Saturday/Sunday count; without them both are 0. For a counted booking, the month-exclusive count equals the nights overlapping the month, so the exclusive end loses no night. |
| Occupancy.LiveFacilities | Allcamp_streamlit.py:407 | Keeps every facility with a go-live date exactly as often as it occurs, and no other facility. |
| Occupancy.OccupancyTable | Allcamp_streamlit.py:385-489 | The monthly table: capacity of live facilities and usage of counted non-cancelled bookings, grouped by cell and outer-joined. Its cells, row values and totals are stated by OccupancyCells, OccupancyRowsMeaning and OccupancyConserves. |
| Occupancy.OccupancyCells | Allcamp_streamlit.py:437-483 | The table has exactly one row per cell of a live facility or of a counted non-cancelled booking. |
| Occupancy.OccupancyRowsMeaning | Allcamp_streamlit.py:437-488 | Each row's capacity and usage are its cell's non-negative group totals, and its rate is the guarded ratio. |
| Occupancy.OccupancyConserves | Allcamp_streamlit.py:416-483 | The table's totals equal the total capacity of all live facilities and the total usage of all counted bookings. |
| Occupancy.WeekendNeverExceedsAllDays | Allcamp_streamlit.py:424-471 | The weekend-only table has the same cells, and per cell no more capacity and no more usage than the plain table. |
| Occupancy.OccupancyDropsBookingsPastMonthEnd | Allcamp_streamlit.py:445-446 | A booking with no checkout, or one checking out after the month's last day, changes nothing in that month's table, even if some of its nights fall inside the month. |
| Occupancy.OccupancyIgnoresCancelled | Allcamp_streamlit.py:164 | A cancelled booking changes no figure of the monthly table. |
| Occupancy.MonthCapacities | Allcamp_streamlit.py:415-433 | The capacity loop yields, per live facility, its monthly capacity for the selector and weekend flag. |
| Occupancy.MonthUsages | Allcamp_streamlit.py:453-471 | The usage loop yields, per counted booking, its month usage for the weekend flag. |
| Occupancy.ComputeOccupancy | Allcamp_streamlit.py:385-489 | The two list-building loops and the join produce the specified table, plus the month's first and last day. |
| Expansion.SoutheastFacilities | Allcamp_streamlit.py:524-527 | Keeps every Southeast facility that has a go-live date exactly as often as it occurs, and no other facility. |
| Expansion.DaysLive | Allcamp_streamlit.py:543-545 | Days of 2028 a facility is listed: 0 without a go-live date or after 2028, 366 when live by 2028-01-01, and 366 - d when it went live on day d of 2028. |
| Expansion.YearCapacity | Allcamp_streamlit.py:534-554 | A facility's 2028 capacity overall and per site type, in every go-live case: all zero without a go-live date or when going live after 2028; 366 nights per site when live from 2028-01-01 or earlier; and (day 365 − go-live day + 1) nights per site when going live during 2028. |
| Expansion.YearCapacityBounds | Allcamp_streamlit.py:534-555 | Each 2028 capacity figure lies between 0 and 366 × that site count. |
| Expansion.JoinBookings | Allcamp_streamlit.py:574-578 | The inner merge on the facility uuid. Every booking paired with every facility it names gives a row; each row occurs exactly as often as its booking occurs times the number of facilities with that uuid in that cell; no other row occurs. |
| Expansion.DaysBooked | Allcamp_streamlit.py:586-588 | A booking's inclusive 2028 days, never negative. |
| Expansion.DaysBookedAreProratedNights | Allcamp_streamlit.py:585-589 | A booking's inclusive 2028 days equal its prorated 2028 nights. |
| Expansion.UsageSplit | Allcamp_streamlit.py:591-607 | Booked days split into RV, tent and structure figures that add up to the total. rv-only puts all of them on RV, structure all on structure, tent-or-rv half on RV and half on tent, and any other category all on tent. |
| Expansion.Redistribute | Allcamp_streamlit.py:655-682 | The adjusted demand of a cell; RedistributionConserves states what it keeps. |
| Expansion.DemandSplitOfSearchers | Allcamp_streamlit.py:653-682 | The typed count, the general count and the adjusted figures derived from a cell's searchers satisfy the demand part of the row invariant: the counts add up to all searchers, and the adjusted figures are the proportional shares or, without typed searchers, the raw counts. |
| Expansion.RedistributionConserves | Allcamp_streamlit.py:655-682 | With typed searchers, the adjusted type figures add up to all searchers, each being its typed count scaled by total/typed. Without typed searchers nothing changes. |
| Expansion.MismatchRatio | Allcamp_streamlit.py:689-724 | The shortfall ratio of one site type, with the sentinel 10 for demand without supply; MismatchMeasuresShortfall ties it to the unfilled demand. |
| Expansion.MismatchMeasuresShortfall | Allcamp_streamlit.py:689-724 | With supply, ratio × supply is the unfilled demand. Without supply, the ratio is 10 exactly when some demand is unfilled, and otherwise 0. It is never negative and is positive exactly when demand is unfilled. |
| Expansion.SentinelExample | Allcamp_streamlit.py:700-702 | Demand 50 with supply 0 scores 10, 150 against 100 scores 0.5, and 80 against 100 scores 0. |
| Expansion.MaxOf3 | Allcamp_streamlit.py:727-729 | The maximum ratio is at least each type's ratio and equal to one of them. |
| Expansion.Unfilled | Allcamp_streamlit.py:1992-2000 | Unfilled demand is max(demand - supply, 0). |
| Expansion.ExpansionRowFor | Allcamp_streamlit.py:627-729 | A cell's derived columns from its merged capacity, usage and demand: it keeps those three as given and satisfies the row invariant. So the typed and general searcher counts are those of the cell's searchers, and each adjusted type figure is its proportional share of all searchers (adjusted × typed = count × all) when typed searchers exist, the raw count otherwise. It also fixes guarded occupancy, priority, the three shortfall ratios and their maximum. |
| Expansion.AssembleExpansion | Allcamp_streamlit.py:561-652 | Groups capacity, usage and demand by cell and outer-merges them with 0 fill. AssembledCells, AssembledValues and AssembledTotals state its cells, values and totals. |
| Expansion.ExpansionTable | Allcamp_streamlit.py:523-732 | The Southeast expansion table; ExpansionCells, ExpansionRowsInvariant and ExpansionConserves state what it holds. |
| Expansion.ExpansionRowsInvariant | Allcamp_streamlit.py:627-729 | In every row: occupancy is the guarded ratio and 0 without capacity; priority is occupancy × searchers; the typed and general counts are those of the row's searchers and add up to all searchers; each adjusted type figure is its proportional share of all searchers when typed searchers exist (adjusted × typed = count × all, adding up to all searchers) and the raw count otherwise; each ratio is the shortfall ratio of adjusted demand against capacity; and the maximum is the largest of the three. |
| Expansion.ExpansionUsageSplits | Allcamp_streamlit.py:613-624 | Per cell, RV, tent and structure nights add up to the nights booked. |
| Expansion.AssembledUsageSplits | Allcamp_streamlit.py:613-624 | Grouping usage rows per cell keeps the split: when every row's RV, tent and structure nights add up to its total, so do every assembled row's. |
| Expansion.ExpansionCapacityNonNegative | Allcamp_streamlit.py:534-570 | With no negative RV, tent or structure site count, no per-type capacity in the table is negative; when no total site count is negative either, no overall (partial) capacity is negative. |
| Expansion.ExpansionCells | Allcamp_streamlit.py:627-652 | One row per cell that has a Southeast facility, a joined booking or searches, and no other row. |
| Expansion.ExpansionConserves | Allcamp_streamlit.py:613-652 | The table's used nights and searchers equal the totals over all joined bookings and all search records. |
| Expansion.ExpansionIgnoresCancelled | Allcamp_streamlit.py:574-578 | A cancelled booking changes nothing in the expansion table. |
| Expansion.YearCapacities | Allcamp_streamlit.py:534-555 | The capacity loop yields, per Southeast facility, its 2028 capacity overall and per site type. |
| Expansion.BookedUsage | Allcamp_streamlit.py:585-607 | The usage loop yields, per joined booking, its booked 2028 days split by category. |
| Expansion.ComputeExpansion | Allcamp_streamlit.py:523-732 | The capacity and usage loops, grouping and merges produce the specified expansion table. |
| LostRevenue.WithNights2028 | Allcamp_streamlit.py:1966 | Keeps every joined booking with at least one prorated 2028 night exactly as often as it occurs, and no other row. |
| LostRevenue.BookingIds | Allcamp_streamlit.py:1969 | The distinct booking ids of the rows, no more of them than rows. |
| LostRevenue.SoutheastTotals | Allcamp_streamlit.py:1952-1981 | The region's distinct 2028 bookings, nights and revenue over the joined Southeast bookings with 2028 nights; SoutheastTotalsConsistent states how they relate. |
| LostRevenue.SoutheastTotalsConsistent | Allcamp_streamlit.py:1953-1981 | Distinct bookings never exceed nights, there are no nights exactly when there are no bookings, and revenue is non-negative when no cost is negative. |
| LostRevenue.ConversionRate | Allcamp_streamlit.py:1974-1977 | The conversion rate is 0 without searchers. Otherwise rate × searchers = bookings, and it is never negative. |
| LostRevenue.NightlyRate | Allcamp_streamlit.py:1983-1986 | The nightly rate is 0 without nights. Otherwise rate × nights = revenue, and it is non-negative for non-negative revenue. |
| LostRevenue.LossRowFor | Allcamp_streamlit.py:1989-2014 | A cell's loss columns: each type's unfilled demand is max(adjusted searchers − capacity, 0) of that type (Unfilled), never negative; they add up to the cell's unfilled site-nights, and the lost revenue is that sum priced at the two rates. |
| LostRevenue.UnfilledIffMismatch | Allcamp_streamlit.py:1992-2007 | A cell's unfilled site-nights are never negative. With non-negative capacities they are positive exactly when its maximum mismatch ratio is. |
| LostRevenue.LostRevenueClosedForm | Allcamp_streamlit.py:2010-2019 | The lost revenue is 2 × conversion rate × nightly rate × total unfilled demand, and 0 without searchers or without 2028 nights. |
| LostRevenue.PricedEstimate | Allcamp_streamlit.py:2009-2019 | The four reported figures for given rates; PricedClosedForm states the total as the priced, doubled unfilled demand. |
| LostRevenue.EstimateLostRevenue | Allcamp_streamlit.py:1971-2019 | The estimate at the observed conversion and nightly rates; LostRevenueClosedForm and EstimateNonNegative state its value and sign. |
| LostRevenue.EstimateNonNegative | Allcamp_streamlit.py:1974-2019 | On a table satisfying the row invariant with non-negative capacities and revenue, every reported figure is non-negative. |
| LostRevenue.SoutheastEstimate | Allcamp_streamlit.py:1952-2019 | The estimate over the Southeast expansion table and the region's totals. |
| LostRevenue.SoutheastEstimateNonNegative | Allcamp_streamlit.py:1952-2019 | With non-negative site counts and costs, the Southeast estimate's four figures are non-negative. |

## Left out

- Reading the CSV files, Streamlit widgets, maps, charts and every displayed
  figure: the model starts from already-parsed records. Month and category are
  parameters, and the month is within 1..12 as the slider guarantees.
- The in-place writes into DataFrame columns (`df.at[...]`, `df.loc[...] =`)
  become fresh sequences and records. Pandas row order is not modelled either:
  the merged tables list cells in order of first occurrence, and pandas sorts
  the keys.
- Floating point: money, rates and ratios are exact reals, so rounding, NaN
  propagation and division-by-zero infinities are not modelled. Every division
  in the source is guarded, and the model keeps the guards.
- Missing dates: the source's arithmetic on a missing date yields NaN, which
  its group sums skip. The model counts such a booking as 0 nights, and its
  cell still appears in the table.
- Missing site counts: records carry integer counts. In the source a missing
  CSV cell is NaN, and `row.get(..., 0) or 0` keeps it, since NaN is truthy.
  Products with it are NaN, and the group sums skip them. So under tent-or-rv
  a facility with one count missing adds no capacity in the source, while the
  model adds the other count. A missing glamping column is 0 in every record.
- Missing cancellation flags: `is_booking_canceled == False` drops a booking
  whose flag is NaN. The model's flag is a `bool`, so such a booking must be
  given as cancelled to match.
- Counting the month's last day as a used night would need
  `min(checkout, month end + 1)`. The source uses `min(checkout, month end)`,
  and the model follows the source. `Occupancy.MonthUsageProperties` shows
  that, because of the checkout filter, no night is lost by this.
- Aggregate.OccupancyRate: the rate is not bounded by 1, because the source
  does not bound it. A cell's usage can exceed its capacity, for example
  bookings at a facility that is not yet live. The bound is stated only under
  usage ≤ capacity.
- Parent-cell search grouping (`group_search_by_parent_id`), first-booked
  dates and the overview statistics are outside the modelled core.
