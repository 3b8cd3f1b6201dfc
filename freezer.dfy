/** The freezer page's state between interactions: the stock table (`df`),
    the container list (`df_cont`) and the session's view state, with the
    handlers that the page's buttons and forms run. */
module Freezer {
  import opened Inventory
  import opened View
  import opened Stock

  class Session {
    var rows: seq<Row>
    var containers: seq<string>
    var sortMode: SortMode
    var search: string
    var category: string
    var location: string
    var lastAdded: Option<string>

    /** The view state held in the session. */
    function ViewOf(): ViewState
      reads this
    {
      ViewState(sortMode, search, category, location, lastAdded)
    }

    /** A fresh session over the loaded tables: newest first, no search,
        both filters on their "all" entry, no marker. */
    constructor (loadedRows: seq<Row>, loadedContainers: seq<string>)
      ensures rows == loadedRows && containers == loadedContainers
      ensures ViewOf() == DefaultView
    {
      rows := loadedRows;
      containers := loadedContainers;
      sortMode := Newest;
      search := "";
      category := AllCategories;
      location := AllLocations;
      lastAdded := None;
    }

    /** The "Ajouter" form: the new row goes in front of all others and
        becomes the "last added" marker. `ts` is the formatted clock. */
    method AddItem(name: string, cat: string, place: string, container: string,
                   quantity: int, ts: string)
      modifies this
      ensures rows == [NewRow(name, cat, place, container, quantity, ts)] + old(rows)
      ensures lastAdded == Some(MarkerOf(name, ts))
      ensures containers == old(containers)
      ensures sortMode == old(sortMode) && search == old(search)
      ensures category == old(category) && location == old(location)
    {
      var row := NewRow(name, cat, place, container, quantity, ts);
      rows := [row] + rows;
      lastAdded := Some(MarkerOf(name, ts));
    }

    /** The "-" button of the row at position `i` of the full table. */
    method Decrement(i: nat)
      requires i < |rows|
      modifies this
      ensures rows == WithDecrement(old(rows), i)
      ensures containers == old(containers) && ViewOf() == old(ViewOf())
    {
      if rows[i].quantity > 1 {
        rows := rows[i := rows[i].(quantity := rows[i].quantity - 1)];
      }
    }

    /** The "+" button of the row at position `i` of the full table. */
    method Increment(i: nat)
      requires i < |rows|
      modifies this
      ensures rows == WithIncrement(old(rows), i)
      ensures containers == old(containers) && ViewOf() == old(ViewOf())
    {
      rows := rows[i := rows[i].(quantity := rows[i].quantity + 1)];
    }

    /** The "Fini" button of the row at position `i` of the full table:
        the row is dropped and the marker cleared, whichever row it named. */
    method Finish(i: nat)
      requires i < |rows|
      modifies this
      ensures rows == Without(old(rows), i)
      ensures lastAdded == None
      ensures containers == old(containers)
      ensures sortMode == old(sortMode) && search == old(search)
      ensures category == old(category) && location == old(location)
    {
      rows := rows[..i] + rows[i + 1..];
      lastAdded := None;
    }

    /** The sort button. */
    method CycleSort()
      modifies this
      ensures sortMode == NextMode(old(sortMode))
      ensures rows == old(rows) && containers == old(containers)
      ensures search == old(search) && category == old(category)
      ensures location == old(location) && lastAdded == old(lastAdded)
    {
      sortMode := Modes[(ModeIndex(sortMode) + 1) % 3];
    }

    /** The search box and the two filter boxes. */
    method SetFilters(text: string, cat: string, place: string)
      modifies this
      ensures search == text && category == cat && location == place
      ensures rows == old(rows) && containers == old(containers)
      ensures sortMode == old(sortMode) && lastAdded == old(lastAdded)
    {
      search, category, location := text, cat, place;
    }

    /** The reset button. */
    method ResetFilters()
      modifies this
      ensures ViewOf() == DefaultView
      ensures rows == old(rows) && containers == old(containers)
    {
      search := "";
      category := AllCategories;
      location := AllLocations;
      sortMode := Newest;
      lastAdded := None;
    }

    /** The "Valider" button of the container form. */
    method AddContainer(name: string)
      modifies this
      ensures containers == WithContainer(old(containers), name)
      ensures rows == old(rows) && ViewOf() == old(ViewOf())
    {
      if name != "" && name !in containers {
        containers := containers + [name];
      }
    }

    /** The delete button of the container at position `i` of the list
        (the list is shown sorted by name, the button keeps the position). */
    method RemoveContainer(i: nat)
      requires i < |containers|
      modifies this
      ensures containers == Without(old(containers), i)
      ensures rows == old(rows) && ViewOf() == old(ViewOf())
    {
      containers := containers[..i] + containers[i + 1..];
    }

    /** The cards of the stock tab for the current state. */
    method StockCards(now: int, parse: string -> Option<int>) returns (cards: seq<Card>)
      ensures var p := Project(rows, ViewOf(), parse);
        |cards| == |p| && forall k :: 0 <= k < |p| ==> cards[k] == CardOf(p[k], now, lastAdded)
    {
      cards := Annotate(Project(rows, ViewOf(), parse), now, lastAdded);
    }
  }

  /** A card's buttons act on the very row it shows: "+" and "-" change only
      that row's quantity and "Fini" removes only that row, whatever the
      card's place in the filtered, sorted list. */
  lemma ButtonsActOnShownRow(rows: seq<Row>, v: ViewState, parse: string -> Option<int>, k: nat)
    requires k < |Project(rows, v, parse)|
    ensures var e := Project(rows, v, parse)[k];
      && e.index < |rows|
      && WithIncrement(rows, e.index)[e.index] == e.row.(quantity := e.row.quantity + 1)
      && WithDecrement(rows, e.index)[e.index].quantity
           == (if e.row.quantity > 1 then e.row.quantity - 1 else e.row.quantity)
      && multiset(Without(rows, e.index)) + multiset{e.row} == multiset(rows)
  {
    var p := Project(rows, v, parse);
    ProjectSpec(rows, v, parse);
    assert p[k] in p;
  }

  /** Right after an add, the new row is shown as new (green, "NOUVEAU")
      wherever it appears in the filtered, sorted list. */
  lemma AddedRowIsFlagged(rows: seq<Row>, v: ViewState, parse: string -> Option<int>,
                          now: int, k: nat, name: string, cat: string, place: string,
                          container: string, quantity: int, ts: string)
    requires var added := [NewRow(name, cat, place, container, quantity, ts)] + rows;
      k < |Project(added, v, parse)| && Project(added, v, parse)[k].index == 0
    ensures var added := [NewRow(name, cat, place, container, quantity, ts)] + rows;
      CardOf(Project(added, v, parse)[k], now, Some(MarkerOf(name, ts))).colour == Green
  {
    var added := [NewRow(name, cat, place, container, quantity, ts)] + rows;
    ProjectSpec(added, v, parse);
    assert Project(added, v, parse)[k] in Project(added, v, parse);
  }
}
