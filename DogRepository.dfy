/**
 * The dog table and the four queries over it. Each query is a selection:
 * the rows it returns are stated by a predicate over the table, and paged
 * queries cut one page out of that selection. The table itself is a map
 * from the id column to the row.
 */
module Repository {
  import opened Wrappers
  import opened Entity
  import opened SqlText

  /** A page request: page number (from 0) and page size. */
  datatype Pageable = Pageable(number: nat, size: nat)

  /** One page of a query's rows, with the number of rows across all pages. */
  datatype Page<T> = Page(content: seq<T>, pageable: Pageable, totalSize: nat)

  /**
   * How many of `total` rows page `p` holds: all `size` of them while rows
   * remain past its end, the rest on the page where they run out, none past
   * that.
   */
  function PageLength(total: nat, p: Pageable): (n: nat)
    ensures n <= p.size && n <= total
    ensures p.number * p.size + p.size <= total ==> n == p.size
    ensures total <= p.number * p.size ==> n == 0
  {
    var from := p.number * p.size;
    if from >= total then 0 else if from + p.size <= total then p.size else total - from
  }

  /** The page `p` of `all`: the rows from offset number * size, at most size of them. */
  function PageOf<T>(all: seq<T>, p: Pageable): (r: Page<T>)
    ensures r.pageable == p && r.totalSize == |all|
    ensures |r.content| == PageLength(|all|, p)
    ensures forall i :: 0 <= i < |r.content| ==>
              p.number * p.size + i < |all| && r.content[i] == all[p.number * p.size + i]
    ensures p.number * p.size + p.size <= |all| ==> |r.content| == p.size
    ensures forall x :: x in r.content ==> x in all
  {
    Page(Window(all, p.number * p.size, p.size), p, |all|)
  }

  /** At most `size` entries of `all` starting at offset `from`. */
  function Window<T>(all: seq<T>, from: nat, size: nat): (r: seq<T>)
    ensures |r| == if from >= |all| then 0 else if from + size <= |all| then size else |all| - from
    ensures forall i :: 0 <= i < |r| ==> from + i < |all| && r[i] == all[from + i]
    ensures from + size <= |all| ==> |r| == size
    ensures forall x :: x in r ==> x in all
  {
    if from >= |all| then []
    else if from + size <= |all| then all[from..from + size]
    else all[from..]
  }

  /** Every selected row lies on a page: row j is entry j % size of page j / size. */
  lemma EveryRowOnSomePage<T>(all: seq<T>, size: nat, j: nat)
    requires 0 < size && j < |all|
    ensures var page := PageOf(all, Pageable(j / size, size));
            j % size < |page.content| && page.content[j % size] == all[j]
  {
    assert (j / size) * size + j % size == j;
  }

  // ---------------------------------------------------------------------
  // A deterministic scan order. The queries carry no ORDER BY, so the
  // database may list rows in any order; the model fixes ascending id.
  // Which rows a query selects, how many land on a page and that no row
  // appears twice do not depend on that choice; which rows land on which
  // page (`PageOf` over `Selection`, `EveryRowOnSomePage`) does.

  /** A set with no element is the empty set. */
  lemma EmptyOrInhabited(s: set<int>)
    ensures s == {} || exists y :: y in s
  {
    if forall y :: y !in s {
      assert s == {};
    }
  }

  lemma {:induction false} MinExists(s: set<int>)
    requires s != {}
    ensures exists m :: m in s && forall x :: x in s ==> m <= x
    decreases s
  {
    EmptyOrInhabited(s);
    var y :| y in s;
    if s == {y} {
      assert forall x :: x in s ==> y <= x;
    } else {
      var rest := s - {y};
      MinExists(rest);
      var m :| m in rest && forall x :: x in rest ==> m <= x;
      var least := if y < m then y else m;
      forall x | x in s
        ensures least <= x
      {
        if x != y {
          assert x in rest;
        }
      }
      assert least in s;
    }
  }

  function MinOf(s: set<int>): (m: int)
    requires s != {}
    ensures m in s && forall x :: x in s ==> m <= x
  {
    MinExists(s);
    var m :| m in s && forall x :: x in s ==> m <= x;
    m
  }

  /** The ids of `s`, each once, in ascending order. */
  function SortedIds(s: set<int>): (r: seq<int>)
    ensures |r| == |s|
    ensures forall i :: 0 <= i < |r| ==> r[i] in s
    ensures forall k :: k in s ==> k in r
    ensures forall i, j :: 0 <= i < j < |r| ==> r[i] < r[j]
    decreases s
  {
    if s == {} then []
    else
      var m := MinOf(s);
      var rest := SortedIds(s - {m});
      SortedIdsStep(s, m, rest);
      [m] + rest
  }

  /** Putting the least id in front of the sorted others sorts the whole set. */
  lemma SortedIdsStep(s: set<int>, m: int, rest: seq<int>)
    requires m in s && forall x :: x in s ==> m <= x
    requires |rest| == |s - {m}|
    requires forall i :: 0 <= i < |rest| ==> rest[i] in s - {m}
    requires forall k :: k in s - {m} ==> k in rest
    requires forall i, j :: 0 <= i < j < |rest| ==> rest[i] < rest[j]
    ensures |[m] + rest| == |s|
    ensures forall i :: 0 <= i < |[m] + rest| ==> ([m] + rest)[i] in s
    ensures forall k :: k in s ==> k in [m] + rest
    ensures forall i, j :: 0 <= i < j < |[m] + rest| ==> ([m] + rest)[i] < ([m] + rest)[j]
  {
    var r := [m] + rest;
    forall i, j | 0 <= i < j < |r|
      ensures r[i] < r[j]
    {
      if i == 0 {
        assert r[j] == rest[j - 1] && rest[j - 1] in s - {m};
      }
    }
    forall k | k in s
      ensures k in r
    {
      if k != m {
        assert k in s - {m};
      }
    }
  }

  /** The rows stored under `ids`, in the order of `ids`. */
  function RowsOf(rows: map<int, DogRow>, ids: seq<int>): (r: seq<DogRow>)
    requires forall i :: 0 <= i < |ids| ==> ids[i] in rows
    ensures |r| == |ids|
    ensures forall i :: 0 <= i < |ids| ==> r[i] == rows[ids[i]]
  {
    if ids == [] then [] else [rows[ids[0]]] + RowsOf(rows, ids[1..])
  }

  /** `x` is the row stored under one of `ids`. */
  ghost predicate StoredUnder(rows: map<int, DogRow>, ids: set<int>, x: DogRow)
  {
    exists k :: k in ids && k in rows && rows[k] == x
  }

  /** No two entries of `s` carry the same id. */
  predicate DistinctIds(s: seq<DogRow>)
  {
    forall i, j :: 0 <= i < j < |s| ==> s[i].id != s[j].id
  }

  /** The rows stored under `ids`, each exactly once. */
  function Selection(rows: map<int, DogRow>, ids: set<int>): (r: seq<DogRow>)
    requires ids <= rows.Keys
    ensures |r| == |ids|
    ensures forall x :: x in r ==> StoredUnder(rows, ids, x)
    ensures forall k :: k in ids ==> rows[k] in r
    ensures KeyedById(rows) ==> DistinctIds(r)
  {
    var order := SortedIds(ids);
    var r := RowsOf(rows, order);
    SelectionFacts(rows, ids, order, r);
    r
  }

  /** Reading the rows under the sorted ids of `ids` yields each of those rows and no other. */
  lemma SelectionFacts(rows: map<int, DogRow>, ids: set<int>, order: seq<int>, r: seq<DogRow>)
    requires ids <= rows.Keys
    requires |order| == |ids|
    requires forall i :: 0 <= i < |order| ==> order[i] in ids
    requires forall k :: k in ids ==> k in order
    requires forall i, j :: 0 <= i < j < |order| ==> order[i] < order[j]
    requires |r| == |order| && forall i :: 0 <= i < |order| ==> r[i] == rows[order[i]]
    ensures forall x :: x in r ==> StoredUnder(rows, ids, x)
    ensures forall k :: k in ids ==> rows[k] in r
    ensures KeyedById(rows) ==> DistinctIds(r)
  {
    forall x | x in r
      ensures StoredUnder(rows, ids, x)
    {
      var i :| 0 <= i < |r| && r[i] == x;
      var k := order[i];
      assert k in ids && k in rows.Keys && rows[k] == x;
    }
    forall k | k in ids
      ensures rows[k] in r
    {
      var i :| 0 <= i < |order| && order[i] == k;
      assert r[i] == rows[k];
    }
    if KeyedById(rows) {
      forall i, j | 0 <= i < j < |r|
        ensures r[i].id != r[j].id
      {
        assert r[i].id == Some(order[i]) && r[j].id == Some(order[j]);
      }
    }
  }

  /** A page cut from rows with distinct ids holds rows with distinct ids. */
  lemma {:induction false} PageKeepsIdsDistinct(all: seq<DogRow>, p: Pageable)
    ensures DistinctIds(all) ==> DistinctIds(PageOf(all, p).content)
  {
    if DistinctIds(all) {
      var c := PageOf(all, p).content;
      var from := p.number * p.size;
      forall i, j | 0 <= i < j < |c|
        ensures c[i].id != c[j].id
      {
        assert c[i] == all[from + i] && c[j] == all[from + j];
      }
    }
  }

  /**
   * What a dog-table row keeps of an entity: every column, with the two
   * references cut down to their foreign-key ids (`status_id`,
   * `leaving_reason_id`). Reading the row back with `SELECT d.*` and no
   * join fetch gives references that carry those ids and no names.
   */
  function Stored(dog: DogRow): (r: DogRow)
    ensures r == dog.(status := r.status, leavingReason := r.leavingReason)
    ensures r.status.Some? <==> dog.status.Some?
    ensures dog.status.Some? ==> r.status.value == DogStatus(dog.status.value.id, None)
    ensures r.leavingReason.Some? <==> dog.leavingReason.Some?
    ensures dog.leavingReason.Some? ==>
              r.leavingReason.value == LeavingReason(dog.leavingReason.value.id, None)
  {
    dog.(status := if dog.status.Some? then Some(DogStatus(dog.status.value.id, None)) else None,
         leavingReason := if dog.leavingReason.Some?
                          then Some(LeavingReason(dog.leavingReason.value.id, None)) else None)
  }

  // ---------------------------------------------------------------------
  // Which rows the queries return.

  /**
   * The inner join `dog_status ds ON d.status_id = ds.id` keeps the row:
   * exactly when the row has a status whose lookup by id finds it.
   */
  predicate JoinsStatus(row: DogRow, statuses: StatusTable)
    ensures JoinsStatus(row, statuses) <==>
              row.status.Some? && FindStatusById(statuses, row.status.value.id).Some?
  {
    row.status.Some? && row.status.value.id in statuses
  }

  /** `d.deleted = false` (a null flag does not pass) and the status join. */
  predicate Visible(row: DogRow, statuses: StatusTable)
    ensures row.deleted.None? || row.deleted == Some(true) ==> !Visible(row, statuses)
    ensures row.status.None? ==> !Visible(row, statuses)
    ensures Visible(row, statuses) ==> row.deleted == Some(false) && JoinsStatus(row, statuses)
  {
    row.deleted == Some(false) && JoinsStatus(row, statuses)
  }

  /**
   * `:f IS NULL OR LOWER(field) LIKE LOWER(CONCAT('%', :f, '%'))`; a null
   * field fails any supplied filter.
   */
  predicate FieldMatches(field: Option<string>, filter: Option<string>)
    ensures filter.None? ==> FieldMatches(field, filter)
    ensures filter.Some? && field.None? ==> !FieldMatches(field, filter)
  {
    filter.None? || (field.Some? && Like(Lower(field.value), Lower("%" + filter.value + "%")))
  }

  /** The three filters of the search, combined with AND. */
  predicate MatchesFilters(row: DogRow, name: Option<string>, breed: Option<string>,
                           supplier: Option<string>)
    ensures name.None? && breed.None? && supplier.None? ==> MatchesFilters(row, name, breed, supplier)
    ensures MatchesFilters(row, name, breed, supplier) ==>
              (name.Some? ==> row.name.Some?) && (breed.Some? ==> row.breed.Some?)
              && (supplier.Some? ==> row.supplier.Some?)
  {
    FieldMatches(row.name, name) && FieldMatches(row.breed, breed)
    && FieldMatches(row.supplier, supplier)
  }

  /** The stored rows are keyed by their own id column. */
  predicate KeyedById(rows: map<int, DogRow>)
  {
    forall k :: k in rows ==> rows[k].id == Some(k)
  }

  function VisibleIds(rows: map<int, DogRow>, statuses: StatusTable): (ids: set<int>)
    ensures ids <= rows.Keys
    ensures forall k :: k in rows ==> (k in ids <==> Visible(rows[k], statuses))
  {
    set k | k in rows && Visible(rows[k], statuses)
  }

  function FilteredIds(rows: map<int, DogRow>, statuses: StatusTable, name: Option<string>,
                       breed: Option<string>, supplier: Option<string>): (ids: set<int>)
    ensures ids <= VisibleIds(rows, statuses)
    ensures forall k :: k in rows ==>
              (k in ids <==> Visible(rows[k], statuses) && MatchesFilters(rows[k], name, breed, supplier))
  {
    set k | k in rows && Visible(rows[k], statuses) && MatchesFilters(rows[k], name, breed, supplier)
  }

  /** `findAllNonDeleted()`: every visible row, once each. */
  function FindAllNonDeleted(rows: map<int, DogRow>, statuses: StatusTable): (r: seq<DogRow>)
    ensures |r| == |VisibleIds(rows, statuses)|
    ensures forall x :: x in r ==> StoredUnder(rows, VisibleIds(rows, statuses), x)
    ensures forall k :: k in rows && Visible(rows[k], statuses) ==> rows[k] in r
    ensures KeyedById(rows) ==> DistinctIds(r)
  {
    Selection(rows, VisibleIds(rows, statuses))
  }

  /** `findAllNonDeleted(pageable)`: one page of the visible rows. */
  function FindAllNonDeletedPage(rows: map<int, DogRow>, statuses: StatusTable, p: Pageable)
    : (r: Page<DogRow>)
    ensures |r.content| == PageLength(r.totalSize, p) <= p.size
    ensures r.totalSize == |VisibleIds(rows, statuses)|
    ensures forall x :: x in r.content ==> StoredUnder(rows, VisibleIds(rows, statuses), x)
    ensures KeyedById(rows) ==> DistinctIds(r.content)
  {
    var all := FindAllNonDeleted(rows, statuses);
    PageKeepsIdsDistinct(all, p);
    PageOf(all, p)
  }

  /** `findByIdNonDeleted(id)`: the row with that id, if it is visible. */
  function FindByIdNonDeleted(rows: map<int, DogRow>, statuses: StatusTable, id: int)
    : (r: Option<DogRow>)
    ensures r.Some? <==> id in rows && Visible(rows[id], statuses)
    ensures r.Some? ==> r.value == rows[id]
  {
    if id in rows && Visible(rows[id], statuses) then Some(rows[id]) else None
  }

  /** Every visible row that passes all supplied filters, once each. */
  function FilteredRows(rows: map<int, DogRow>, statuses: StatusTable, name: Option<string>,
                        breed: Option<string>, supplier: Option<string>): (r: seq<DogRow>)
    ensures |r| == |FilteredIds(rows, statuses, name, breed, supplier)|
    ensures forall x :: x in r ==> StoredUnder(rows, FilteredIds(rows, statuses, name, breed, supplier), x)
    ensures forall k :: (k in rows && Visible(rows[k], statuses)
                         && MatchesFilters(rows[k], name, breed, supplier)) ==> rows[k] in r
    ensures KeyedById(rows) ==> DistinctIds(r)
  {
    Selection(rows, FilteredIds(rows, statuses, name, breed, supplier))
  }

  /** `findByFilters(name, breed, supplier, pageable)`: one page of the filtered rows. */
  function FindByFilters(rows: map<int, DogRow>, statuses: StatusTable, name: Option<string>,
                         breed: Option<string>, supplier: Option<string>, p: Pageable)
    : (r: Page<DogRow>)
    ensures |r.content| == PageLength(r.totalSize, p) <= p.size
    ensures r.totalSize == |FilteredIds(rows, statuses, name, breed, supplier)|
    ensures forall x :: x in r.content ==>
              StoredUnder(rows, FilteredIds(rows, statuses, name, breed, supplier), x)
    ensures KeyedById(rows) ==> DistinctIds(r.content)
  {
    var all := FilteredRows(rows, statuses, name, breed, supplier);
    PageKeepsIdsDistinct(all, p);
    PageOf(all, p)
  }

  /** `softDelete(id)`'s UPDATE: flag and timestamp of that one row, if it exists. */
  function MarkDeleted(rows: map<int, DogRow>, id: int, now: Timestamp)
    : (r: map<int, DogRow>)
    ensures r.Keys == rows.Keys
    ensures forall k :: k in rows && k != id ==> r[k] == rows[k]
    ensures id in rows ==> r[id].deleted == Some(true) && r[id].updatedAt == Some(now)
    ensures id in rows ==> r[id] == rows[id].(deleted := Some(true), updatedAt := Some(now))
  {
    if id in rows then rows[id := rows[id].(deleted := Some(true), updatedAt := Some(now))]
    else rows
  }

  // ---------------------------------------------------------------------
  // Properties of the queries.

  /** With all three filters null, the search selects exactly what the plain listing selects. */
  lemma AllNullFiltersSelectNonDeleted(rows: map<int, DogRow>, statuses: StatusTable, p: Pageable)
    ensures FilteredRows(rows, statuses, None, None, None) == FindAllNonDeleted(rows, statuses)
    ensures FindByFilters(rows, statuses, None, None, None, p) == FindAllNonDeletedPage(rows, statuses, p)
  {
    assert FilteredIds(rows, statuses, None, None, None) == VisibleIds(rows, statuses);
  }

  /**
   * Over a table keyed by id, a row is in the search result exactly when it
   * is visible and passes every supplied filter.
   */
  lemma SearchSelectsExactly(rows: map<int, DogRow>, statuses: StatusTable, name: Option<string>,
                             breed: Option<string>, supplier: Option<string>, k: int)
    requires KeyedById(rows) && k in rows
    ensures rows[k] in FilteredRows(rows, statuses, name, breed, supplier)
            <==> Visible(rows[k], statuses) && MatchesFilters(rows[k], name, breed, supplier)
  {
    var ids := FilteredIds(rows, statuses, name, breed, supplier);
    if rows[k] in FilteredRows(rows, statuses, name, breed, supplier) {
      var j :| j in ids && j in rows && rows[j] == rows[k];
      assert rows[j].id == Some(j) && rows[k].id == Some(k);
    }
  }

  /** Filters are conjunctive: a row that fails any one supplied filter is on no page. */
  lemma RejectedByOneFilterExcluded(rows: map<int, DogRow>, statuses: StatusTable,
                                    name: Option<string>, breed: Option<string>,
                                    supplier: Option<string>, p: Pageable, k: int)
    requires KeyedById(rows) && k in rows
    requires !FieldMatches(rows[k].name, name) || !FieldMatches(rows[k].breed, breed)
             || !FieldMatches(rows[k].supplier, supplier)
    ensures rows[k] !in FindByFilters(rows, statuses, name, breed, supplier, p).content
  {
    SearchSelectsExactly(rows, statuses, name, breed, supplier, k);
  }

  /** A supplied filter without `%` or `_` is a case-insensitive substring test. */
  lemma {:induction false} FilterIsSubstring(field: Option<string>, f: string)
    requires Literal(f)
    ensures FieldMatches(field, Some(f)) <==> field.Some? && Contains(Lower(field.value), Lower(f))
  {
    LowerConcat("%" + f, "%");
    LowerConcat("%", f);
    assert Lower("%") == "%";
    LowerKeepsLiteral(f);
    if field.Some? {
      SurroundedLiteralIsSubstring(Lower(field.value), Lower(f));
    }
  }

  /** An empty filter, `'%%'`, matches every non-null value and no null one. */
  lemma {:induction false} EmptyFilterMatchesAnyValue(field: Option<string>)
    ensures FieldMatches(field, Some("")) <==> field.Some?
  {
    assert Lower("%" + "" + "%") == "%%";
    if field.Some? {
      PercentMatchesAll(Lower(field.value));
      assert Like(Lower(field.value), "%%");
    }
  }

  /** The service tests' name search: "Buddy" finds Buddy and not Charlie. */
  lemma {:induction false} NameSearchExample()
    ensures FieldMatches(Some("Buddy"), Some("Buddy"))
    ensures !FieldMatches(Some("Charlie"), Some("Buddy"))
  {
    FilterIsSubstring(Some("Buddy"), "Buddy");
    assert OccursAt(Lower("Buddy"), Lower("Buddy"), 0);
    FilterIsSubstring(Some("Charlie"), "Buddy");
    var charlie := Lower("Charlie");
    forall i | 0 <= i <= |charlie|
      ensures !OccursAt(charlie, Lower("Buddy"), i)
    {
      if i < |charlie| {
        assert charlie[i] != 'b';
      }
    }
  }

  /** The service tests' supplier search: "ABC" finds "ABC Kennels", and so does "abc". */
  lemma {:induction false} SupplierSearchExample()
    ensures FieldMatches(Some("ABC Kennels"), Some("ABC"))
    ensures FieldMatches(Some("ABC Kennels"), Some("abc"))
  {
    assert Lower("ABC") == "abc" && Lower("abc") == "abc";
    assert Lower("ABC Kennels")[..3] == "abc";
    assert OccursAt(Lower("ABC Kennels"), "abc", 0);
    FilterIsSubstring(Some("ABC Kennels"), "ABC");
    FilterIsSubstring(Some("ABC Kennels"), "abc");
  }

  /** A user-typed `_` is a wildcard: "R_x" finds "Rex" though it is no substring of it. */
  lemma {:induction false} UnderscoreSearchExample()
    ensures FieldMatches(Some("Rex"), Some("R_x")) && !Contains("Rex", "R_x")
  {
    LowerConcat("%" + "R_x", "%");
    LowerConcat("%", "R_x");
    assert Lower("%") == "%" && Lower("R_x") == "r_x" && Lower("Rex") == "rex";
    assert Lower("%" + "R_x" + "%") == "%r_x%";
    PercentMatchesAll("");
    assert Like("x", "x%");
    assert Like("ex", "_x%");
    assert Like("rex", "r_x%");
    assert Like("rex", "%r_x%");
    forall i | 0 <= i <= |"Rex"|
      ensures !OccursAt("Rex", "R_x", i)
    {
      if i + 1 < |"Rex"| {
        assert "Rex"[i + 1] != '_';
      }
    }
  }

  /**
   * A row that is not visible (deleted, or its flag null) is returned by no
   * read: not by id, not on any page of the listing or of any search.
   */
  lemma HiddenRowUnreachable(rows: map<int, DogRow>, statuses: StatusTable, id: int,
                             name: Option<string>, breed: Option<string>,
                             supplier: Option<string>, p: Pageable)
    requires KeyedById(rows) && id in rows && rows[id].deleted != Some(false)
    ensures FindByIdNonDeleted(rows, statuses, id).None?
    ensures forall x :: x in FindAllNonDeletedPage(rows, statuses, p).content ==> x.id != Some(id)
    ensures forall x :: x in FindByFilters(rows, statuses, name, breed, supplier, p).content ==>
              x.id != Some(id)
  {
    forall x | x in FindAllNonDeletedPage(rows, statuses, p).content
      ensures x.id != Some(id)
    {
      var k :| k in VisibleIds(rows, statuses) && k in rows && rows[k] == x;
    }
    forall x | x in FindByFilters(rows, statuses, name, breed, supplier, p).content
      ensures x.id != Some(id)
    {
      var k :| k in FilteredIds(rows, statuses, name, breed, supplier) && k in rows && rows[k] == x;
    }
  }

  /** Soft-deleting a row hides that row from the listing and leaves the others as they were. */
  lemma MarkDeletedHidesOnlyThatRow(rows: map<int, DogRow>, statuses: StatusTable, id: int,
                                    now: Timestamp)
    ensures VisibleIds(MarkDeleted(rows, id, now), statuses) == VisibleIds(rows, statuses) - {id}
  {
  }

  /** The store's own bookkeeping: rows keyed by id, every id below the next one to hand out. */
  ghost predicate WellKeyed(rows: map<int, DogRow>, nextId: int)
  {
    KeyedById(rows) && forall k :: k in rows ==> k < nextId
  }

  /**
   * The dog table. `statuses` is the dog_status table the queries join
   * with; `nextId` is the identity generator; `clock` is CURRENT_TIMESTAMP,
   * advanced by each write.
   */
  class DogRepository {
    const statuses: StatusTable
    var rows: map<int, DogRow>
    var nextId: int
    var clock: Timestamp

    ghost predicate Valid()
      reads this
    {
      WellKeyed(rows, nextId)
    }

    constructor (statuses: StatusTable)
      ensures Valid()
      ensures this.statuses == statuses && rows == map[]
    {
      this.statuses := statuses;
      rows := map[];
      nextId, clock := 1, 0;
    }

    /**
     * `save(dog)`: inserts the entity as a new row under a freshly generated
     * id, stamping createdAt and updatedAt; the same entity comes back with
     * those three fields set and its references as they were, names
     * included. The row keeps only the references' ids.
     */
    method Save(dog: Dog) returns (saved: Dog)
      requires Valid()
      modifies this, dog
      ensures Valid()
      ensures saved == dog
      ensures old(nextId) !in old(rows)
      ensures dog.Row() == old(dog.Row()).(id := Some(old(nextId)), createdAt := Some(old(clock)),
                                            updatedAt := Some(old(clock)))
      ensures rows == old(rows)[old(nextId) := Stored(dog.Row())]
      ensures nextId > old(nextId) && clock > old(clock)
    {
      dog.SetId(Some(nextId));
      dog.SetCreatedAt(Some(clock));
      dog.SetUpdatedAt(Some(clock));
      rows := rows[nextId := Stored(dog.Row())];
      nextId := nextId + 1;
      clock := clock + 1;
      saved := dog;
    }

    /**
     * `update(dog)`: writes every column of the entity over the row with its
     * id, stamping updatedAt; no row changes when that id is not stored.
     * As with `save`, the entity keeps its references whole and the row
     * keeps their ids.
     */
    method Update(dog: Dog) returns (updated: Dog)
      requires Valid() && dog.id.Some?
      modifies this, dog
      ensures Valid()
      ensures updated == dog
      ensures dog.Row() == old(dog.Row()).(updatedAt := Some(old(clock)))
      ensures rows == if dog.id.value in old(rows) then old(rows)[dog.id.value := Stored(dog.Row())]
                      else old(rows)
      ensures nextId == old(nextId) && clock > old(clock)
    {
      dog.SetUpdatedAt(Some(clock));
      if dog.id.value in rows {
        rows := rows[dog.id.value := Stored(dog.Row())];
      }
      clock := clock + 1;
      updated := dog;
    }

    /**
     * `softDelete(id)`: sets the deleted flag and updatedAt of the row with
     * that id, whatever its flag was, and changes nothing else.
     */
    method SoftDelete(id: int)
      requires Valid()
      modifies this
      ensures Valid()
      ensures rows == MarkDeleted(old(rows), id, old(clock))
      ensures nextId == old(nextId) && clock > old(clock)
    {
      rows := MarkDeleted(rows, id, clock);
      clock := clock + 1;
    }
  }
}
