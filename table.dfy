/** Operations on the working table: row selection (boolean masks), the
    orders it is sorted in (`sort_values`), and a reference sort that yields
    a sorted permutation under each of them. */
module Table {
  import opened Text
  import opened Inventory

  /** The sort keys used by the page:
      ByName                    -- `sort_values(by='Nom')`
      ByDateThenName(newest)    -- `sort_values(by=['Date_dt', 'Nom'])`, the
                                   date descending when `newest` is set
      ByDate                    -- the recap's `sort_values(by='Date_dt')`
      An unknown date (NaT) always goes after every known date. */
  datatype Order = ByName | ByDateThenName(newestFirst: bool) | ByDate

  /** Date `x` comes strictly before date `y`: a known date before an
      unknown one, and known dates by the requested direction. */
  predicate DateBefore(newestFirst: bool, x: Option<int>, y: Option<int>)
  {
    match x
    case None => false
    case Some(a) =>
      match y
      case None => true
      case Some(b) => if newestFirst then a > b else a < b
  }

  /** `a` may be placed before `b` in a table sorted by `o`. */
  predicate Le(o: Order, a: Entry, b: Entry)
  {
    match o
    case ByName => StrLe(a.row.name, b.row.name)
    case ByDateThenName(nf) =>
      DateBefore(nf, a.stamp, b.stamp) || (a.stamp == b.stamp && StrLe(a.row.name, b.row.name))
    case ByDate => !DateBefore(false, b.stamp, a.stamp)
  }

  predicate Sorted(o: Order, s: seq<Entry>)
  {
    forall i, j :: 0 <= i < j < |s| ==> Le(o, s[i], s[j])
  }

  lemma LeTotal(o: Order, a: Entry, b: Entry)
    ensures Le(o, a, b) || Le(o, b, a)
  {
    StrLeTotal(a.row.name, b.row.name);
  }

  lemma LeTransitive(o: Order, a: Entry, b: Entry, c: Entry)
    requires Le(o, a, b) && Le(o, b, c)
    ensures Le(o, a, c)
  {
    match o
    case ByName =>
      StrLeTransitive(a.row.name, b.row.name, c.row.name);
    case ByDateThenName(nf) =>
      if a.stamp == b.stamp == c.stamp {
        StrLeTransitive(a.row.name, b.row.name, c.row.name);
      }
    case ByDate =>
  }

  /** Inserts `e` in front of the first element it may precede. */
  function Insert(o: Order, e: Entry, s: seq<Entry>): seq<Entry>
  {
    if s == [] then [e]
    else if Le(o, e, s[0]) then [e] + s
    else [s[0]] + Insert(o, e, s[1..])
  }

  /** Insertion sort: the reference for `sort_values`. */
  function Sort(o: Order, s: seq<Entry>): seq<Entry>
  {
    if s == [] then [] else Insert(o, s[0], Sort(o, s[1..]))
  }

  lemma PrependSorted(o: Order, x: Entry, s: seq<Entry>)
    requires Sorted(o, s)
    requires forall k :: 0 <= k < |s| ==> Le(o, x, s[k])
    ensures Sorted(o, [x] + s)
  {
  }

  lemma {:induction false} InsertPermutes(o: Order, e: Entry, s: seq<Entry>)
    ensures multiset(Insert(o, e, s)) == multiset{e} + multiset(s)
  {
    if s != [] && !Le(o, e, s[0]) {
      InsertPermutes(o, e, s[1..]);
      assert s == [s[0]] + s[1..];
    }
  }

  lemma {:induction false} InsertSorted(o: Order, e: Entry, s: seq<Entry>)
    requires Sorted(o, s)
    ensures Sorted(o, Insert(o, e, s))
  {
    if s == [] {
    } else if Le(o, e, s[0]) {
      forall k | 0 <= k < |s| ensures Le(o, e, s[k]) {
        if k > 0 { LeTransitive(o, e, s[0], s[k]); }
      }
      PrependSorted(o, e, s);
    } else {
      LeTotal(o, e, s[0]);
      var tail := Insert(o, e, s[1..]);
      InsertSorted(o, e, s[1..]);
      InsertPermutes(o, e, s[1..]);
      forall k | 0 <= k < |tail| ensures Le(o, s[0], tail[k]) {
        assert tail[k] in multiset(tail);
        if tail[k] != e {
          assert tail[k] in multiset(s[1..]);
          var m :| 0 <= m < |s[1..]| && s[1..][m] == tail[k];
          assert s[1..][m] == s[m + 1];
        }
      }
      PrependSorted(o, s[0], tail);
    }
  }

  /** The reference sort yields a sorted permutation of its input. */
  lemma {:induction false} SortSpec(o: Order, s: seq<Entry>)
    ensures multiset(Sort(o, s)) == multiset(s)
    ensures Sorted(o, Sort(o, s))
  {
    if s != [] {
      SortSpec(o, s[1..]);
      InsertPermutes(o, s[0], Sort(o, s[1..]));
      InsertSorted(o, s[0], Sort(o, s[1..]));
      assert s == [s[0]] + s[1..];
    }
  }

  /** In every date order, once an unknown date appears in a sorted table,
      all later rows have unknown dates too. */
  lemma UnknownDatesLast(o: Order, s: seq<Entry>)
    requires o != ByName && Sorted(o, s)
    ensures forall i, j :: 0 <= i < j < |s| && s[i].stamp.None? ==> s[j].stamp.None?
  {
  }

  /** The rows of `s` that `keep` accepts, in their original order
      (a boolean mask `df[mask]`). */
  function Select(keep: Entry -> bool, s: seq<Entry>): seq<Entry>
  {
    if s == [] then []
    else (if keep(s[0]) then [s[0]] else []) + Select(keep, s[1..])
  }

  /** A selection keeps exactly the accepted rows and takes no row twice. */
  lemma {:induction false} SelectSpec(keep: Entry -> bool, s: seq<Entry>)
    ensures forall e :: e in Select(keep, s) <==> e in s && keep(e)
    ensures multiset(Select(keep, s)) <= multiset(s)
  {
    if s != [] {
      SelectSpec(keep, s[1..]);
      assert s == [s[0]] + s[1..];
    }
  }

  /** A mask that accepts every row leaves the table as it is. */
  lemma {:induction false} SelectAll(keep: Entry -> bool, s: seq<Entry>)
    requires forall k :: 0 <= k < |s| ==> keep(s[k])
    ensures Select(keep, s) == s
  {
    if s != [] {
      SelectAll(keep, s[1..]);
      assert s == [s[0]] + s[1..];
    }
  }

  predicate NoRepeats(s: seq<Entry>)
  {
    forall i, j :: 0 <= i < j < |s| ==> s[i] != s[j]
  }

  lemma {:induction false} NoRepeatsCountsOnce(s: seq<Entry>)
    requires NoRepeats(s)
    ensures forall x :: multiset(s)[x] <= 1
  {
    if s != [] {
      NoRepeatsCountsOnce(s[1..]);
      assert s == [s[0]] + s[1..];
      assert s[0] !in s[1..];
    }
  }

  lemma RepeatCountsTwice(s: seq<Entry>, i: nat, j: nat)
    requires i < j < |s| && s[i] == s[j]
    ensures multiset(s)[s[i]] >= 2
  {
    assert s == s[..j] + [s[j]] + s[j + 1..];
    assert s[i] in s[..j];
  }

  /** A table whose multiset of rows is within that of a table without
      repeats has no repeats itself. */
  lemma NoRepeatsWithin(a: seq<Entry>, b: seq<Entry>)
    requires NoRepeats(b) && multiset(a) <= multiset(b)
    ensures NoRepeats(a)
  {
    NoRepeatsCountsOnce(b);
    forall i, j | 0 <= i < j < |a| ensures a[i] != a[j] {
      if a[i] == a[j] { RepeatCountsTwice(a, i, j); }
    }
  }
}
