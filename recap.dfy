/** The recap tab: the rows of one freezer in order of age, and the counts
    of items to eat first (older than six months, between three and six
    months old). */
module Recap {
  import opened Inventory
  import opened Table

  /** The rows of the stock table stored at `place`. */
  function AtPlace(rows: seq<Row>, parse: string -> Option<int>, place: string): seq<Entry>
  {
    Select((e: Entry) => e.row.location == place, Tagged(rows, parse))
  }

  /** The recap list: the rows at `place`, oldest date first. */
  function RecapList(rows: seq<Row>, parse: string -> Option<int>, place: string): seq<Entry>
  {
    Sort(ByDate, AtPlace(rows, parse, place))
  }

  /** The recap list holds each row stored at `place` once, sorted by date
      ascending with unknown dates last; the view's sort mode plays no part. */
  lemma RecapListSpec(rows: seq<Row>, parse: string -> Option<int>, place: string)
    ensures var r := RecapList(rows, parse, place);
      forall e :: e in r <==>
        e.index < |rows| && e.row == rows[e.index] && e.stamp == parse(rows[e.index].date)
        && rows[e.index].location == place
    ensures NoRepeats(RecapList(rows, parse, place))
    ensures var r := RecapList(rows, parse, place);
      forall i, j :: 0 <= i < j < |r| ==>
        && (r[i].stamp.None? ==> r[j].stamp.None?)
        && (r[i].stamp.Some? && r[j].stamp.Some? ==> r[i].stamp.value <= r[j].stamp.value)
  {
    var tagged := Tagged(rows, parse);
    var chosen := AtPlace(rows, parse, place);
    var r := RecapList(rows, parse, place);
    SelectSpec((e: Entry) => e.row.location == place, tagged);
    SortSpec(ByDate, chosen);
    forall e ensures e in r <==> e in chosen {
      assert e in r <==> e in multiset(r);
      assert e in chosen <==> e in multiset(chosen);
    }
    forall e ensures e in tagged <==>
      e.index < |rows| && e.row == rows[e.index] && e.stamp == parse(rows[e.index].date)
    {
      if e.index < |rows| && e.row == rows[e.index] && e.stamp == parse(rows[e.index].date) {
        assert tagged[e.index] == e;
      }
    }
    NoRepeatsWithin(r, tagged);
    forall i, j | 0 <= i < j < |r| ensures Le(ByDate, r[i], r[j]) { }
  }

  /** The icon in front of a recap line: white, red or orange dot. */
  datatype Icon = WhiteDot | RedDot | OrangeDot

  /** A recap line's icon, decided from the row's age as the recap tab
      does, by the same thresholds as the stock tab's stripe colour. */
  function RecapIcon(now: int, stamp: Option<int>): (i: Icon)
    ensures i == RedDot <==> Classify(now, stamp) == Stale
    ensures i == OrangeDot <==> Classify(now, stamp) == Warning
    ensures i == WhiteDot <==> Classify(now, stamp) == Fresh
  {
    if stamp.None? then WhiteDot
    else
      var diff := AgeDays(now, stamp.value);
      if diff >= StaleDays then RedDot
      else if diff >= WarningDays then OrangeDot
      else WhiteDot
  }

  /** Rows with a known date at least 180 days old (the red count). */
  function StaleCount(s: seq<Entry>, now: int): nat
  {
    if s == [] then 0
    else
      var red := s[0].stamp.Some? && AgeDays(now, s[0].stamp.value) >= StaleDays;
      (if red then 1 else 0) + StaleCount(s[1..], now)
  }

  /** Rows with a known date between 90 and 179 days old (the orange count). */
  function WarningCount(s: seq<Entry>, now: int): nat
  {
    if s == [] then 0
    else
      var orange := s[0].stamp.Some? && AgeDays(now, s[0].stamp.value) >= WarningDays
        && AgeDays(now, s[0].stamp.value) < StaleDays;
      (if orange then 1 else 0) + WarningCount(s[1..], now)
  }

  /** Rows whose aging status is `a`. */
  function CountAging(s: seq<Entry>, now: int, a: Aging): nat
  {
    if s == [] then 0
    else (if Classify(now, s[0].stamp) == a then 1 else 0) + CountAging(s[1..], now, a)
  }

  /** The recap's two counts agree with the colours of the rows' stripes,
      and no row is counted twice: the stale, warning and fresh rows
      together are all the rows. */
  lemma {:induction false} CountsMatchAging(s: seq<Entry>, now: int)
    ensures StaleCount(s, now) == CountAging(s, now, Stale)
    ensures WarningCount(s, now) == CountAging(s, now, Warning)
    ensures StaleCount(s, now) + WarningCount(s, now) + CountAging(s, now, Fresh) == |s|
  {
    if s != [] {
      CountsMatchAging(s[1..], now);
    }
  }

  lemma {:induction false} CountAgingPositive(s: seq<Entry>, now: int, a: Aging)
    ensures CountAging(s, now, a) > 0 <==> exists k :: 0 <= k < |s| && Classify(now, s[k].stamp) == a
  {
    if s != [] {
      CountAgingPositive(s[1..], now, a);
      if Classify(now, s[0].stamp) != a && CountAging(s, now, a) == 0 {
        forall k | 0 <= k < |s| ensures Classify(now, s[k].stamp) != a {
          if k > 0 { assert s[k] == s[1..][k - 1]; }
        }
      }
      if CountAging(s[1..], now, a) > 0 {
        var k :| 0 <= k < |s[1..]| && Classify(now, s[1..][k].stamp) == a;
        assert s[1..][k] == s[k + 1];
      }
    }
  }

  /** The "à consommer en priorité" box's counts. */
  datatype Summary = Summary(stale: nat, warning: nat)

  /** The box shown above the recap list, if any. */
  function RecapSummary(rows: seq<Row>, parse: string -> Option<int>, place: string, now: int)
    : Option<Summary>
  {
    var s := AtPlace(rows, parse, place);
    var red := StaleCount(s, now);
    var orange := WarningCount(s, now);
    if red > 0 || orange > 0 then Some(Summary(red, orange)) else None
  }

  /** The box appears exactly when some row at `place` is at least 90 days
      old, and it counts the red and the orange rows there. */
  lemma SummaryShownIff(rows: seq<Row>, parse: string -> Option<int>, place: string, now: int)
    ensures var s := AtPlace(rows, parse, place);
      RecapSummary(rows, parse, place, now).Some? <==>
        exists k :: 0 <= k < |s| && Classify(now, s[k].stamp) != Fresh
    ensures var s := AtPlace(rows, parse, place);
      RecapSummary(rows, parse, place, now).Some? ==>
        RecapSummary(rows, parse, place, now).value
          == Summary(CountAging(s, now, Stale), CountAging(s, now, Warning))
  {
    var s := AtPlace(rows, parse, place);
    CountsMatchAging(s, now);
    CountAgingPositive(s, now, Stale);
    CountAgingPositive(s, now, Warning);
  }
}
