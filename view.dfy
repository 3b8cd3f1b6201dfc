/** The stock tab's view: the sort-mode button, the filter state, the
    projection of the stock table into the displayed list, and the cards
    (coloured stripe, "NOUVEAU" flag) drawn for each displayed row. */
module View {
  import opened Text
  import opened Inventory
  import opened Table

  /** `st.session_state.sort_mode`. */
  datatype SortMode = Alpha | Newest | Oldest

  /** The button's list of modes, in cycling order. */
  const Modes: seq<SortMode> := [Alpha, Newest, Oldest]

  /** `modes.index(sort_mode)`. */
  function ModeIndex(m: SortMode): (i: nat)
    ensures i < |Modes| && Modes[i] == m
  {
    match m
    case Alpha => 0
    case Newest => 1
    case Oldest => 2
  }

  /** The mode after one press of the sort button. */
  function NextMode(m: SortMode): SortMode
  {
    Modes[(ModeIndex(m) + 1) % 3]
  }

  /** The button cycles alpha, newest, oldest and back: every press changes
      the mode, and three presses return to the starting mode. */
  lemma NextModeCycles(m: SortMode)
    ensures NextMode(Alpha) == Newest && NextMode(Newest) == Oldest && NextMode(Oldest) == Alpha
    ensures NextMode(m) != m
    ensures NextMode(NextMode(NextMode(m))) == m
  {
  }

  /** The order each sort mode applies to the working table. */
  function OrderOf(m: SortMode): Order
  {
    match m
    case Alpha => ByName
    case Newest => ByDateThenName(true)
    case Oldest => ByDateThenName(false)
  }

  const AllCategories: string := "Toutes"
  const AllLocations: string := "Tous"

  /** The session's view state: sort mode, search text, category and
      location filters, and the "last added" marker. */
  datatype ViewState = ViewState(
    sortMode: SortMode,
    search: string,
    category: string,
    location: string,
    lastAdded: Option<string>)

  /** The state the page starts in and that the reset button restores. */
  const DefaultView: ViewState := ViewState(Newest, "", AllCategories, AllLocations, None)

  /** A row passes the search box and both filters. The search compares
      lower-cased text; an empty search and the two sentinels accept all. */
  predicate Passes(v: ViewState, e: Entry)
  {
    && (v.search == "" || ContainsText(Lower(e.row.name), Lower(v.search)))
    && (v.category == AllCategories || e.row.category == v.category)
    && (v.location == AllLocations || e.row.location == v.location)
  }

  /** The rows displayed by the stock tab, in display order. */
  function Project(rows: seq<Row>, v: ViewState, parse: string -> Option<int>): seq<Entry>
  {
    Sort(OrderOf(v.sortMode), Select(e => Passes(v, e), Tagged(rows, parse)))
  }

  /** The displayed list holds exactly the rows of the stock table that pass
      the filters, each once and carrying its position in the full table,
      ordered by the current sort mode. */
  lemma ProjectSpec(rows: seq<Row>, v: ViewState, parse: string -> Option<int>)
    ensures var p := Project(rows, v, parse);
      forall e :: e in p <==>
        e.index < |rows| && e.row == rows[e.index] && e.stamp == parse(rows[e.index].date)
        && Passes(v, e)
    ensures var p := Project(rows, v, parse);
      multiset(p) == multiset(Select(e => Passes(v, e), Tagged(rows, parse)))
    ensures NoRepeats(Project(rows, v, parse))
    ensures Sorted(OrderOf(v.sortMode), Project(rows, v, parse))
  {
    var tagged := Tagged(rows, parse);
    var keep := e => Passes(v, e);
    var chosen := Select(keep, tagged);
    var p := Project(rows, v, parse);
    SelectSpec(keep, tagged);
    SortSpec(OrderOf(v.sortMode), chosen);
    forall e ensures e in p <==> e in chosen {
      assert e in p <==> e in multiset(p);
      assert e in chosen <==> e in multiset(chosen);
    }
    forall e ensures e in tagged <==>
      e.index < |rows| && e.row == rows[e.index] && e.stamp == parse(rows[e.index].date)
    {
      if e.index < |rows| && e.row == rows[e.index] && e.stamp == parse(rows[e.index].date) {
        assert tagged[e.index] == e;
      }
    }
    NoRepeatsWithin(p, tagged);
  }

  /** In "newest" mode known dates come newest first, rows of equal date by
      name; in "oldest" mode oldest first; in both, unknown dates come last. */
  lemma DateModesOrder(rows: seq<Row>, v: ViewState, parse: string -> Option<int>)
    requires v.sortMode != Alpha
    ensures var p := Project(rows, v, parse);
      forall i, j :: 0 <= i < j < |p| ==>
        && (p[i].stamp.None? ==> p[j].stamp.None?)
        && (p[i].stamp.Some? && p[j].stamp.Some? && v.sortMode == Newest ==>
              p[i].stamp.value >= p[j].stamp.value)
        && (p[i].stamp.Some? && p[j].stamp.Some? && v.sortMode == Oldest ==>
              p[i].stamp.value <= p[j].stamp.value)
        && (p[i].stamp == p[j].stamp ==> StrLe(p[i].row.name, p[j].row.name))
  {
    ProjectSpec(rows, v, parse);
    var p := Project(rows, v, parse);
    forall i, j | 0 <= i < j < |p| ensures p[i].stamp == p[j].stamp ==> StrLe(p[i].row.name, p[j].row.name) {
      assert Le(OrderOf(v.sortMode), p[i], p[j]);
    }
    UnknownDatesLast(OrderOf(v.sortMode), p);
  }

  /** With the default view state every row of the stock table is shown,
      newest first. */
  lemma DefaultViewShowsAll(rows: seq<Row>, parse: string -> Option<int>)
    ensures multiset(Project(rows, DefaultView, parse)) == multiset(Tagged(rows, parse))
    ensures Sorted(ByDateThenName(true), Project(rows, DefaultView, parse))
  {
    var tagged := Tagged(rows, parse);
    SelectAll(e => Passes(DefaultView, e), tagged);
    SortSpec(ByDateThenName(true), tagged);
  }

  /** The stripe colours: #ddd, #ffa500, #ff4b4b, and #2e7d32 for a new row. */
  datatype Colour = Grey | Orange | Red | Green

  function AgingColour(a: Aging): Colour
  {
    match a
    case Fresh => Grey
    case Warning => Orange
    case Stale => Red
  }

  /** What the stock tab draws for one displayed row. `index` is the row's
      position in the full table, which its three buttons act on. */
  datatype Card = Card(index: nat, row: Row, isNew: bool, colour: Colour)

  /** The card for one row: new when the marker names it; green when new,
      otherwise red, orange or grey by age. */
  function CardOf(e: Entry, now: int, marker: Option<string>): (c: Card)
    ensures c.index == e.index && c.row == e.row
    ensures c.isNew <==> marker == Some(MarkerOf(e.row.name, e.row.date))
    ensures c.colour == Green <==> c.isNew
    ensures c.colour == Red <==>
      !c.isNew && e.stamp.Some? && AgeDays(now, e.stamp.value) >= StaleDays
    ensures c.colour == Orange <==>
      !c.isNew && e.stamp.Some? && WarningDays <= AgeDays(now, e.stamp.value) < StaleDays
    ensures c.colour == Grey <==>
      !c.isNew && (e.stamp.None? || AgeDays(now, e.stamp.value) < WarningDays)
  {
    var isNew := marker == Some(MarkerOf(e.row.name, e.row.date));
    Card(e.index, e.row, isNew, if isNew then Green else AgingColour(Classify(now, e.stamp)))
  }

  /** The stock tab's loop over the displayed rows: decides each row's
      "new" flag and stripe colour. */
  method Annotate(view: seq<Entry>, now: int, marker: Option<string>) returns (cards: seq<Card>)
    ensures |cards| == |view|
    ensures forall k :: 0 <= k < |view| ==> cards[k] == CardOf(view[k], now, marker)
  {
    cards := [];
    var k := 0;
    while k < |view|
      invariant k <= |view|
      invariant |cards| == k
      invariant forall j :: 0 <= j < k ==> cards[j] == CardOf(view[j], now, marker)
    {
      var e := view[k];
      var isNew := Some(MarkerOf(e.row.name, e.row.date)) == marker;
      var colour := Grey;
      if e.stamp.Some? {
        var diff := AgeDays(now, e.stamp.value);
        if diff >= StaleDays {
          colour := Red;
        } else if diff >= WarningDays {
          colour := Orange;
        }
      }
      if isNew {
        colour := Green;
      }
      cards := cards + [Card(e.index, e.row, isNew, colour)];
      k := k + 1;
    }
  }
}
