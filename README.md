# Freezer stock: a Dafny model

This project models the core of a household freezer stock tracker, a single Streamlit page (`congelo.py`). The page stores items as an ordered table of rows. Each row has a name, a category, a quantity, a freezer location, the date it was added and a container. The page keeps a small view state: sort mode, search text, category and location filters, and a "last added" marker. Three parts of the page are modelled:

- **Stock tab.** It adds items at the head of the table and bumps quantities up or down (never below one). "Fini" removes an item. It shows a filtered, sorted list of cards. Each card's stripe colour gives the item's age (grey, orange from 90 days, red from 180 days), and green marks the item just added.
- **Recap tab.** It lists one freezer's items oldest first. It counts the items older than six months and those between three and six months old, and shows a summary box when either count is non-zero.
- **Configuration tab.** It holds the container list. A name is added only when it is non-empty and new. A name is deleted by its position.

Modules, one per component of the page:

- `Text` (text.dfy): lower-casing, substring search, and Python's string order.
- `Inventory` (inventory.dfy): rows, dated rows of the working table (`Entry`), age in days, and the aging classification.
- `Table` (table.dfy): boolean-mask selection, the sort orders, and a reference sort proved to give sorted permutations.
- `View` (view.dfy): sort-mode cycling, view state, filters, the projection of the table into the displayed list, and the card loop.
- `Recap` (recap.dfy): the recap list, its counts and its summary.
- `Stock` (stock.dfy): the table and container-list changes, as functions on values, with their lemmas.
- `Freezer` (freezer.dfy): class `Session`. Its fields are the stock table, the container list and the session's view state. Its methods are the page's handlers, each specified by the functions above.

Modelling choices:

- A row's position in the full table is the pandas index label. The table is always rebuilt with `ignore_index=True` or `reset_index(drop=True)`, so the label equals the position. The working table keeps that label in its `index` column (`Entry.index`), and the card buttons act on it (`ButtonsActOnShownRow`).
- A date is an instant in whole seconds, or `None` when pandas cannot parse it (NaT). Parsing the `Date` text is the parameter `parse`. The current time is the parameter `now`, the clock rounded down to the second; rounding does not change the whole-day count. `timedelta.days` rounds toward minus infinity, which is Dafny's `/` by a positive divisor.
- A multi-key `sort_values` puts NaT last in both directions and breaks ties on the next key. So in both date modes, rows with unknown dates come last, ordered by name.
- Category and location are free strings, because the table is read from CSV. The sentinels "Toutes" and "Tous" switch their filters off.

Three behaviours of the code a reader might not expect:

- Adding an item does not reject an empty name (congelo.py:107-115). The handler accepts any quantity; the form's number input alone keeps it at one or more (congelo.py:105).
- "Fini" clears the "last added" marker whichever row it removes (congelo.py:183), not only when the marker named that row.
- No handler reports a missing item. Each button takes its index from the table it acts on, so the handlers require a position inside the table.

## Model

| member | source | states |
|---|---|---|
| `Text.ContainsTextMeaning` | congelo.py:133 | the left-to-right scan finds the search text exactly when it occurs somewhere in the name |
| `Inventory.AgeDays` | congelo.py:156 | the age in days is the number of whole days from the date to now, rounded down (`d * 86400 <= now - t < (d + 1) * 86400`) |
| `Inventory.Classify` | congelo.py:155-158 | Stale iff the date is known and at least 180 days old; Warning iff known and 90 to 179 days old; Fresh iff the date is unknown or under 90 days |
| `Inventory.ClassifyBoundaries` | congelo.py:157-158 | 89 days is Fresh, exactly 90 days is Warning, one second short of 180 days is Warning, exactly 180 days is Stale |
| `Table.SelectSpec` | congelo.py:133-135 | a boolean mask keeps exactly the rows it accepts and takes no row more often than the table holds it |
| `Table.SortSpec` | congelo.py:138-144 | the reference sort returns a permutation of its input that is sorted by the requested order |
| `Table.UnknownDatesLast` | congelo.py:141-144 | in a table sorted by a date order, every row after an unknown date also has an unknown date |
| `View.ModeIndex` | congelo.py:122-123 | the position of the mode in the button's list `alpha, newest, oldest` |
| `View.NextModeCycles` | congelo.py:121-123 | the button maps alpha to newest, newest to oldest and oldest to alpha; each press changes the mode and three presses return to the start |
| `View.ProjectSpec` | congelo.py:130-146 | the displayed list holds exactly the rows that pass the search (case-insensitive substring, empty search accepts all), the category filter (unless "Toutes") and the location filter (unless "Tous"); each appears once, carries its position in the full table, and the list is sorted by the current mode's order |
| `View.DateModesOrder` | congelo.py:140-144 | in "newest" mode known dates are descending and in "oldest" mode ascending; equal dates are ordered by name; unknown dates come last |
| `View.DefaultViewShowsAll` | congelo.py:79-84 | under the view state that reset restores, the displayed list is a permutation of the whole table sorted newest first |
| `View.CardOf` | congelo.py:153-159 | a card is new iff the marker equals `name_date` of its row; it is green iff new, otherwise red, orange or grey exactly by the age rule; its index is the row's position in the full table |
| `View.Annotate` | congelo.py:151-159 | the loop over the displayed rows produces, for each row in order, the card that `CardOf` describes |
| `Recap.RecapListSpec` | congelo.py:191-207 | the recap list holds each row stored at the chosen location once, sorted by date ascending with unknown dates last; the view's sort mode is not an input |
| `Recap.RecapIcon` | congelo.py:214-218 | a recap line's dot is red, orange or white exactly as the row's aging status is Stale, Warning or Fresh |
| `Recap.CountsMatchAging` | congelo.py:198-199 | the red count equals the number of Stale rows and the orange count the number of Warning rows; stale, warning and fresh rows together are all the rows, so no row is counted twice |
| `Recap.CountAgingPositive` | congelo.py:201 | the count of rows with a given aging status is positive iff some row has that status |
| `Recap.SummaryShownIff` | congelo.py:196-201 | the summary box appears iff some row at the location is at least 90 days old, and it carries the stale and warning counts |
| `Stock.WithIncrement` | congelo.py:177-178 | "+" adds exactly one to the quantity of the row at the given position; no other field and no other row changes |
| `Stock.WithDecrement` | congelo.py:170-172 | "-" takes one from the quantity only when it is above one, otherwise the table is unchanged; no other field and no other row changes |
| `Stock.Without` | congelo.py:182 | dropping a position removes exactly that element: earlier ones keep their positions, later ones move up by one, and the multiset loses only that element |
| `Stock.DecrementUndoesIncrement` | congelo.py:170-179 | "-" after "+" restores the table when the quantity was at least one |
| `Stock.DecrementFloorsAtOne` | congelo.py:170-172 | pressing "-" n times leaves a quantity q > 1 at max(q - n, 1) and a quantity at or below one unchanged, touching nothing else |
| `Stock.MutationsKeepQuantitiesPositive` | congelo.py:170-184 | if every quantity is at least one, it stays so after "+", "-", "Fini", and after adding a row of quantity at least one |
| `Stock.FinishUndoesAdd` | congelo.py:181-184 | "Fini" on the row an add just put at the head gives back the table from before the add |
| `Stock.WithContainer` | congelo.py:233-234 | adding a container keeps the existing names in place and appends at most one; it appends iff the name is non-empty and absent; afterwards the names are the old ones plus the new one when non-empty |
| `Stock.WithContainerKeepsDistinct` | congelo.py:233-234 | adding a container keeps the list duplicate-free, registers every non-empty name, loses no name, and is idempotent |
| `Stock.WithoutKeepsDistinct` | congelo.py:242-243 | deleting the container at a position keeps the list duplicate-free, removes that name and keeps every other name |
| `Freezer.Session.constructor` | congelo.py:89-90 | a new session starts in "newest" mode with an empty search, both filters on "all" and no marker |
| `Freezer.Session.AddItem` | congelo.py:107-115 | the table becomes the new row followed by the old rows in their order; the marker becomes `name_ts`; nothing else changes |
| `Freezer.Session.Decrement` | congelo.py:170-173 | the table becomes `WithDecrement` of the old one; containers and view state are unchanged |
| `Freezer.Session.Increment` | congelo.py:177-179 | the table becomes `WithIncrement` of the old one; containers and view state are unchanged |
| `Freezer.Session.Finish` | congelo.py:181-184 | the row at the position is dropped and the marker is cleared whichever row it named; the filters, sort mode and containers are unchanged |
| `Freezer.Session.CycleSort` | congelo.py:121-123 | the sort mode advances to `NextMode`; everything else is unchanged |
| `Freezer.Session.SetFilters` | congelo.py:119-128 | the search, category and location widgets set those three fields and nothing else |
| `Freezer.Session.ResetFilters` | congelo.py:79-84 | search becomes "", category "Toutes", location "Tous", sort mode "newest" and the marker None; the tables are unchanged (so resetting twice equals resetting once) |
| `Freezer.Session.AddContainer` | congelo.py:230-237 | the container list becomes `WithContainer` of the old one; the stock table and view state are unchanged |
| `Freezer.Session.RemoveContainer` | congelo.py:239-246 | the container at the given position of the list (not of its sorted display) is removed; nothing else changes |
| `Freezer.Session.StockCards` | congelo.py:130-159 | the stock tab's cards are, in order, the cards of the projected list for the current view state and marker |
| `Freezer.ButtonsActOnShownRow` | congelo.py:146-184 | a card's "+", "-" and "Fini" act on the very row the card shows, whatever its place in the filtered, sorted list |
| `Freezer.AddedRowIsFlagged` | congelo.py:153-159 | right after an add, the new row's card is green wherever the row appears in the displayed list |

## Left out

- Rendering (CSS, tabs, columns, markdown and HTML strings, `st.rerun()`, the summary's message text) is presentation only.
- Syncing a file to GitHub (`save_to_github`) is network I/O, and the page ignores its result.
- Loading and saving the CSV files is file I/O through pandas, so the tables are constructor parameters. This covers header capitalisation, the fallback to an empty table, the default containers "Pyrex", "Tupperware" and "Verre Carré", and the `to_csv` calls.
- The clock and date parsing (`datetime.now()`, `strftime`, `pd.to_datetime(..., dayfirst=True)`) are parameters: `now`, the formatted timestamp `ts`, and `parse`.
- Text.Lower: lower-cases ASCII letters only; Unicode case folding is not modelled.
- View.Passes: `str.contains` treats the search text as a regular expression; the model treats it as plain text.
- Table.SortSpec: the sort is specified as any sorted permutation. Which of several equal-key rows pandas puts first (its algorithm's stability) is not modelled, and the insertion sort is only one valid result.
- Freezer.Session.AddItem: the quantity of at least one comes from the number input's `min_value=1` (congelo.py:105), so the handler states no bound on it.
- The containers offered by the add form's drop-down and the sorted display of the container list are presentation. Removal acts on the list position, which is modelled.
- The marker `name_date` is not a unique key. Two rows with the same name and timestamp are both shown as new, as in the source.
- Date parsing is modelled per value: `parse` maps one Date text to an instant on its own. `pd.to_datetime` on a whole column may infer one format from the column's first value, and the stock tab parses the whole table (congelo.py:132) while the recap parses only one location's rows (congelo.py:194). So with mixed date formats in the CSV, a row's date could be known in one tab and unknown in the other; the model does not capture this.
- Non-numeric quantities read from CSV are not modelled; a quantity is an integer.
