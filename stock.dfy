/** The changes the page makes to the stock table and to the container
    list, as functions from the old table to the new one. */
module Stock {
  import opened Inventory

  /** The "+" button: one more of the item at position `i`. */
  function WithIncrement(rows: seq<Row>, i: nat): (r: seq<Row>)
    requires i < |rows|
    ensures |r| == |rows|
    ensures r[i].quantity == rows[i].quantity + 1
    ensures r[i] == rows[i].(quantity := r[i].quantity)
    ensures forall j :: 0 <= j < |rows| && j != i ==> r[j] == rows[j]
  {
    rows[i := rows[i].(quantity := rows[i].quantity + 1)]
  }

  /** The "-" button: one fewer of the item at position `i`, but only while
      more than one is left; at one (or less) nothing changes. */
  function WithDecrement(rows: seq<Row>, i: nat): (r: seq<Row>)
    requires i < |rows|
    ensures |r| == |rows|
    ensures rows[i].quantity > 1 ==> r[i].quantity == rows[i].quantity - 1
    ensures rows[i].quantity <= 1 ==> r == rows
    ensures r[i] == rows[i].(quantity := r[i].quantity)
    ensures forall j :: 0 <= j < |rows| && j != i ==> r[j] == rows[j]
  {
    if rows[i].quantity > 1 then rows[i := rows[i].(quantity := rows[i].quantity - 1)]
    else rows
  }

  /** `drop(i).reset_index(drop=True)`: the table without its row at
      position `i`. */
  function Without<T>(s: seq<T>, i: nat): (r: seq<T>)
    requires i < |s|
    ensures |r| == |s| - 1
    ensures forall j :: 0 <= j < i ==> r[j] == s[j]
    ensures forall j :: i <= j < |r| ==> r[j] == s[j + 1]
    ensures multiset(r) + multiset{s[i]} == multiset(s)
  {
    assert s == s[..i] + [s[i]] + s[i + 1..];
    s[..i] + s[i + 1..]
  }

  /** Every item has at least one unit. */
  predicate AllPositive(rows: seq<Row>)
  {
    forall k :: 0 <= k < |rows| ==> rows[k].quantity >= 1
  }

  /** "-" undoes "+" on an item that had at least one unit. */
  lemma DecrementUndoesIncrement(rows: seq<Row>, i: nat)
    requires i < |rows| && rows[i].quantity >= 1
    ensures WithDecrement(WithIncrement(rows, i), i) == rows
  {
  }

  /** The table after pressing "-" `n` times on the item at `i`. */
  function DecrementTimes(rows: seq<Row>, i: nat, n: nat): (r: seq<Row>)
    requires i < |rows|
    ensures |r| == |rows|
  {
    if n == 0 then rows else WithDecrement(DecrementTimes(rows, i, n - 1), i)
  }

  /** Pressing "-" `n` times takes an item with more than one unit down by
      `n`, but never below one; an item at one or below stays as it is; no
      other row and no other field changes. */
  lemma {:induction false} DecrementFloorsAtOne(rows: seq<Row>, i: nat, n: nat)
    requires i < |rows|
    ensures var q := rows[i].quantity;
      DecrementTimes(rows, i, n)[i].quantity == if q <= 1 then q else if q - n >= 1 then q - n else 1
    ensures DecrementTimes(rows, i, n)[i] == rows[i].(quantity := DecrementTimes(rows, i, n)[i].quantity)
    ensures forall j :: 0 <= j < |rows| && j != i ==> DecrementTimes(rows, i, n)[j] == rows[j]
  {
    if n > 0 {
      DecrementFloorsAtOne(rows, i, n - 1);
    }
  }

  /** "+", "-" and "Fini" keep every quantity at one or more, and so does
      adding an item with at least one unit. */
  lemma MutationsKeepQuantitiesPositive(rows: seq<Row>, i: nat, row: Row)
    requires AllPositive(rows) && i < |rows|
    ensures AllPositive(WithIncrement(rows, i))
    ensures AllPositive(WithDecrement(rows, i))
    ensures AllPositive(Without(rows, i))
    ensures row.quantity >= 1 ==> AllPositive([row] + rows)
  {
  }

  /** "Fini" on the row just added at the head gives back the table as it
      was before the add. */
  lemma FinishUndoesAdd(rows: seq<Row>, row: Row)
    ensures Without([row] + rows, 0) == rows
  {
  }

  /** No name appears twice. */
  predicate Distinct(names: seq<string>)
  {
    forall i, j :: 0 <= i < j < |names| ==> names[i] != names[j]
  }

  /** The "Valider" button of the container form: the name is appended
      unless it is empty or already registered. */
  function WithContainer(names: seq<string>, name: string): (r: seq<string>)
    ensures |names| <= |r| <= |names| + 1 && r[..|names|] == names
    ensures |r| == |names| + 1 <==> name != "" && name !in names
    ensures forall n :: n in r <==> n in names || (n == name && n != "")
  {
    if name != "" && name !in names then names + [name] else names
  }

  /** Adding a container keeps the registry free of duplicates, registers
      every non-empty name, and adding the same name again changes nothing. */
  lemma WithContainerKeepsDistinct(names: seq<string>, name: string)
    requires Distinct(names)
    ensures Distinct(WithContainer(names, name))
    ensures name != "" ==> name in WithContainer(names, name)
    ensures WithContainer(WithContainer(names, name), name) == WithContainer(names, name)
    ensures forall n :: n in names ==> n in WithContainer(names, name)
  {
  }

  /** Deleting the container at position `i` removes that name for good and
      keeps the registry free of duplicates. */
  lemma WithoutKeepsDistinct(names: seq<string>, i: nat)
    requires Distinct(names) && i < |names|
    ensures Distinct(Without(names, i))
    ensures names[i] !in Without(names, i)
    ensures forall j :: 0 <= j < |names| && j != i ==> names[j] in Without(names, i)
  {
  }
}
