/**
 * The bucket search of `BucketRepositoryImpl`: optional filters are turned
 * into one criteria query over buckets LEFT JOINed to their catalog objects,
 * filtered by the conjunction of the predicates present, grouped per bucket,
 * counting the joined objects that survive, ordered by bucket id.
 *
 * The model has two layers: the query as data (`Predicate`, `CriteriaQuery`),
 * built exactly as the source builds it, and its meaning over an in-memory
 * table of buckets, with SQL's three-valued logic for the NULL object columns
 * of an empty bucket's joined row.
 */
module BucketRepository {
  import opened Wrappers
  import opened SqlText

  // ---------------------------------------------------------------------
  // Tables

  /** A catalog object row, with the lower-case mirror columns the search reads. */
  datatype CatalogObject = CatalogObject(
    name: string, nameLower: string,
    kind: string, kindLower: string,
    contentType: string, contentTypeLower: string)

  /** A bucket row together with the catalog objects it contains. */
  datatype Bucket = Bucket(id: int, bucketName: string, owner: string, catalogObjects: seq<CatalogObject>)

  /** The mirror columns hold the lower-cased display values. */
  predicate MirrorsInSync(o: CatalogObject) {
    o.nameLower == Lower(o.name) && o.kindLower == Lower(o.kind) && o.contentTypeLower == Lower(o.contentType)
  }

  /** Bucket ids are the table's primary key. */
  predicate UniqueBucketIds(db: seq<Bucket>) {
    forall i, j :: 0 <= i < j < |db| ==> db[i].id != db[j].id
  }

  /** One result row: (bucketName, owner, count, id). */
  datatype Row = Row(bucketName: string, owner: string, count: nat, id: int)

  // ---------------------------------------------------------------------
  // The query as data

  datatype Column = KindLower | ContentTypeLower | NameLower

  datatype Junction = And | Or

  datatype Predicate =
    | Like(column: Column, pattern: string)       // cb.like(join.get(column), pattern)
    | OwnerIn(owners: seq<string>)                // cb.in(root.get("owner")).value(owners)
    | Combined(junction: Junction, operands: seq<Predicate>)  // cb.and(...) / cb.or(...)

  /** The variable part of the criteria query; join, selection, grouping and order are fixed. */
  datatype CriteriaQuery = CriteriaQuery(where: Option<Predicate>)

  /** The only failure: `kindList.size()` on a null list. */
  datatype QueryError = NullKindList

  /** The filters of one search, with a non-null kind list. */
  datatype Filters = Filters(owners: Option<seq<string>>, kinds: seq<string>,
                             contentType: Option<string>, objectName: Option<string>)

  function KindLike(kind: string): Predicate {
    Like(KindLower, Lower(kind) + "%")
  }

  function ContentTypeLike(contentType: string): Predicate {
    Like(ContentTypeLower, Lower(contentType) + "%")
  }

  function ObjectNameLike(objectName: string): Predicate {
    Like(NameLower, "%" + Lower(objectName) + "%")
  }

  /** A list holding one predicate is used as it is; a longer list is wrapped. */
  function Unwrapped(j: Junction, ps: seq<Predicate>): Predicate
    requires |ps| > 0
  {
    if |ps| == 1 then ps[0] else Combined(j, ps)
  }

  function KindPredicates(kinds: seq<string>): seq<Predicate> {
    seq(|kinds|, i requires 0 <= i < |kinds| => KindLike(kinds[i]))
  }

  /** The predicates the builder collects, in the order it collects them. */
  function AllPredicates(f: Filters): seq<Predicate> {
    (if |f.kinds| > 0 then [Unwrapped(Or, KindPredicates(f.kinds))] else [])
    + (if f.contentType.Some? then [ContentTypeLike(f.contentType.value)] else [])
    + (if f.objectName.Some? then [ObjectNameLike(f.objectName.value)] else [])
    + (if f.owners.Some? then [OwnerIn(f.owners.value)] else [])
  }

  function QueryFor(f: Filters): CriteriaQuery {
    var all := AllPredicates(f);
    CriteriaQuery(if |all| == 0 then None else Some(Unwrapped(And, all)))
  }

  /** What `buildCriteriaQuery` produces for its four arguments. */
  function Criteria(owners: Option<seq<string>>, kindList: Option<seq<string>>,
                    contentType: Option<string>, objectName: Option<string>): Result<CriteriaQuery, QueryError>
  {
    if kindList.None? then Failure(NullKindList)
    else Success(QueryFor(Filters(owners, kindList.value, contentType, objectName)))
  }

  /** `buildCriteriaQuery`: collects the predicates step by step, as the source does. */
  method BuildCriteriaQuery(owners: Option<seq<string>>, kindList: Option<seq<string>>,
                            contentType: Option<string>, objectName: Option<string>)
    returns (r: Result<CriteriaQuery, QueryError>)
    ensures r == Criteria(owners, kindList, contentType, objectName)
    ensures r.Failure? <==> kindList.None?
  {
    if kindList.None? {
      return Failure(NullKindList);
    }
    var kinds := kindList.value;
    var allPredicates: seq<Predicate> := [];
    if |kinds| > 0 {
      var kindPredicatesList: seq<Predicate> := [];
      for i := 0 to |kinds|
        invariant |kindPredicatesList| == i
        invariant forall j :: 0 <= j < i ==> kindPredicatesList[j] == KindLike(kinds[j])
      {
        kindPredicatesList := kindPredicatesList + [KindLike(kinds[i])];
      }
      assert kindPredicatesList == KindPredicates(kinds);
      var kindPredicate;
      if |kinds| == 1 {
        kindPredicate := kindPredicatesList[0];
      } else {
        kindPredicate := Combined(Or, kindPredicatesList);
      }
      allPredicates := allPredicates + [kindPredicate];
    }
    if contentType.Some? {
      allPredicates := allPredicates + [ContentTypeLike(contentType.value)];
    }
    if objectName.Some? {
      allPredicates := allPredicates + [ObjectNameLike(objectName.value)];
    }
    if owners.Some? {
      allPredicates := allPredicates + [OwnerIn(owners.value)];
    }
    var where: Option<Predicate> := None;
    if |allPredicates| > 0 {
      var finalPredicate;
      if |allPredicates| == 1 {
        finalPredicate := allPredicates[0];
      } else {
        finalPredicate := Combined(And, allPredicates);
      }
      where := Some(finalPredicate);
    }
    assert allPredicates == AllPredicates(Filters(owners, kinds, contentType, objectName));
    r := Success(CriteriaQuery(where));
  }

  // ---------------------------------------------------------------------
  // Three-valued evaluation of a predicate on one joined row

  datatype Truth = True | False | Unknown

  function Apply(j: Junction, a: Truth, b: Truth): Truth {
    match j
    case And => if a == False || b == False then False else if a == True && b == True then True else Unknown
    case Or => if a == True || b == True then True else if a == False && b == False then False else Unknown
  }

  function Fold(j: Junction, ts: seq<Truth>): Truth {
    if ts == [] then (if j == And then True else False) else Apply(j, ts[0], Fold(j, ts[1..]))
  }

  function ColumnValue(o: CatalogObject, c: Column): string {
    match c
    case KindLower => o.kindLower
    case ContentTypeLower => o.contentTypeLower
    case NameLower => o.nameLower
  }

  /**
   * The value of `p` on the joined row (b, o); `o` is None for the row an
   * empty bucket gets from the LEFT JOIN, whose object columns are NULL.
   */
  function Eval(p: Predicate, b: Bucket, o: Option<CatalogObject>): Truth {
    match p
    case Like(c, pattern) =>
      if o.None? then Unknown else if LikeMatches(ColumnValue(o.value, c), pattern) then True else False
    case OwnerIn(owners) => if b.owner in owners then True else False
    case Combined(j, ps) => Fold(j, seq(|ps|, i requires 0 <= i < |ps| => Eval(ps[i], b, o)))
  }

  /** The WHERE clause keeps a row only when it evaluates to TRUE. */
  predicate Selects(q: CriteriaQuery, b: Bucket, o: Option<CatalogObject>) {
    q.where.None? || Eval(q.where.value, b, o) == True
  }

  // ---------------------------------------------------------------------
  // Executing the query: LEFT JOIN, WHERE, GROUP BY with COUNT, ORDER BY id

  function SomeAll(objs: seq<CatalogObject>): seq<Option<CatalogObject>> {
    if objs == [] then [] else [Some(objs[0])] + SomeAll(objs[1..])
  }

  /** `root.join("catalogObjects", JoinType.LEFT)` for one bucket. */
  function JoinedRows(b: Bucket): seq<Option<CatalogObject>> {
    if b.catalogObjects == [] then [None] else SomeAll(b.catalogObjects)
  }

  function Surviving(q: CriteriaQuery, b: Bucket, rows: seq<Option<CatalogObject>>): seq<Option<CatalogObject>> {
    if rows == [] then []
    else (if Selects(q, b, rows[0]) then [rows[0]] else []) + Surviving(q, b, rows[1..])
  }

  /** `COUNT(object.id.name)`: NULL values are not counted. */
  function CountNonNull(rows: seq<Option<CatalogObject>>): nat {
    if rows == [] then 0 else (if rows[0].Some? then 1 else 0) + CountNonNull(rows[1..])
  }

  /** The group of one bucket: no row when none of its joined rows survives. */
  function BucketRows(q: CriteriaQuery, b: Bucket): seq<Row> {
    var survivors := Surviving(q, b, JoinedRows(b));
    if survivors == [] then [] else [Row(b.bucketName, b.owner, CountNonNull(survivors), b.id)]
  }

  function GroupedRows(q: CriteriaQuery, db: seq<Bucket>): seq<Row> {
    if db == [] then [] else BucketRows(q, db[0]) + GroupedRows(q, db[1..])
  }

  predicate SortedById(rows: seq<Row>) {
    forall i, j :: 0 <= i < j < |rows| ==> rows[i].id <= rows[j].id
  }

  predicate StrictlySortedById(rows: seq<Row>) {
    forall i, j :: 0 <= i < j < |rows| ==> rows[i].id < rows[j].id
  }

  /** No two rows share a bucket id. */
  predicate DistinctIds(rows: seq<Row>) {
    forall i, j :: 0 <= i < j < |rows| ==> rows[i].id != rows[j].id
  }

  function Insert(x: Row, rows: seq<Row>): seq<Row> {
    if rows == [] then [x]
    else if x.id <= rows[0].id then [x] + rows
    else [rows[0]] + Insert(x, rows[1..])
  }

  lemma {:induction false} InsertElements(x: Row, rows: seq<Row>)
    ensures multiset(Insert(x, rows)) == multiset(rows) + multiset{x}
  {
    if rows == [] {
    } else if x.id <= rows[0].id {
      assert Insert(x, rows) == [x] + rows;
    } else {
      var tail := rows[1..];
      InsertElements(x, tail);
      assert rows == [rows[0]] + tail;
      calc {
        multiset(Insert(x, rows));
        multiset([rows[0]] + Insert(x, tail));
        multiset{rows[0]} + multiset(Insert(x, tail));
        multiset{rows[0]} + multiset(tail) + multiset{x};
        multiset(rows) + multiset{x};
      }
    }
  }

  lemma {:induction false} InsertMembers(x: Row, rows: seq<Row>)
    ensures forall y :: y in Insert(x, rows) <==> y == x || y in rows
  {
    if rows != [] && x.id > rows[0].id {
      InsertMembers(x, rows[1..]);
      assert rows == [rows[0]] + rows[1..];
    }
  }

  lemma {:induction false} InsertSorted(x: Row, rows: seq<Row>)
    requires SortedById(rows)
    ensures SortedById(Insert(x, rows))
  {
    if rows != [] && x.id > rows[0].id {
      var rest := Insert(x, rows[1..]);
      InsertSorted(x, rows[1..]);
      InsertMembers(x, rows[1..]);
      assert forall y :: y in rows[1..] ==> rows[0].id <= y.id by {
        forall y | y in rows[1..] ensures rows[0].id <= y.id {
          var k :| 0 <= k < |rows[1..]| && rows[1..][k] == y;
          assert rows[k + 1] == y;
        }
      }
      var r := [rows[0]] + rest;
      forall i, j | 0 <= i < j < |r| ensures r[i].id <= r[j].id {
        assert r[j] == rest[j - 1] && r[j] in rest;
        if i > 0 {
          assert r[i] == rest[i - 1];
        }
      }
    }
  }

  lemma {:induction false} InsertStrictlySorted(x: Row, rows: seq<Row>)
    requires StrictlySortedById(rows)
    requires forall y :: y in rows ==> y.id != x.id
    ensures StrictlySortedById(Insert(x, rows))
  {
    if rows != [] && x.id > rows[0].id {
      var tail := rows[1..];
      forall y | y in tail ensures rows[0].id < y.id && y.id != x.id {
        var k :| 0 <= k < |tail| && tail[k] == y;
        assert rows[k + 1] == y;
      }
      assert StrictlySortedById(tail) by {
        forall i, j | 0 <= i < j < |tail| ensures tail[i].id < tail[j].id {
          assert tail[i] == rows[i + 1] && tail[j] == rows[j + 1];
        }
      }
      InsertStrictlySorted(x, tail);
      var rest := Insert(x, tail);
      InsertMembers(x, tail);
      var r := [rows[0]] + rest;
      forall i, j | 0 <= i < j < |r| ensures r[i].id < r[j].id {
        assert r[j] == rest[j - 1] && r[j] in rest;
        if i > 0 {
          assert r[i] == rest[i - 1];
        }
      }
    }
  }

  lemma DistinctTail(rows: seq<Row>)
    requires rows != [] && DistinctIds(rows)
    ensures DistinctIds(rows[1..])
    ensures forall y :: y in rows[1..] ==> y.id != rows[0].id
  {
    forall i, j | 0 <= i < j < |rows[1..]| ensures rows[1..][i].id != rows[1..][j].id {
      assert rows[1..][i] == rows[i + 1] && rows[1..][j] == rows[j + 1];
    }
    forall y | y in rows[1..] ensures y.id != rows[0].id {
      var k :| 0 <= k < |rows[1..]| && rows[1..][k] == y;
      assert rows[k + 1] == y;
    }
  }

  /** One insertion step keeps what `SortById` promises, given that it holds for the tail. */
  lemma InsertStep(rows: seq<Row>, rest: seq<Row>)
    requires rows != []
    requires SortedById(rest) && multiset(rest) == multiset(rows[1..])
    requires forall y :: y in rest <==> y in rows[1..]
    requires DistinctIds(rows[1..]) ==> StrictlySortedById(rest)
    ensures SortedById(Insert(rows[0], rest))
    ensures multiset(Insert(rows[0], rest)) == multiset(rows)
    ensures forall y :: y in Insert(rows[0], rest) <==> y in rows
    ensures DistinctIds(rows) ==> StrictlySortedById(Insert(rows[0], rest))
  {
    InsertElements(rows[0], rest);
    InsertMembers(rows[0], rest);
    InsertSorted(rows[0], rest);
    assert rows == [rows[0]] + rows[1..];
    if DistinctIds(rows) {
      DistinctTail(rows);
      InsertStrictlySorted(rows[0], rest);
    }
  }

  /** `ORDER BY id ASC`, as an insertion sort of the grouped rows. */
  function SortById(rows: seq<Row>): (r: seq<Row>)
    ensures SortedById(r)
    ensures multiset(r) == multiset(rows)
    ensures forall y :: y in r <==> y in rows
    ensures DistinctIds(rows) ==> StrictlySortedById(r)
  {
    if rows == [] then []
    else
      var rest := SortById(rows[1..]);
      InsertStep(rows, rest);
      Insert(rows[0], rest)
  }

  /** Running the criteria query against the bucket table. */
  function Execute(q: CriteriaQuery, db: seq<Bucket>): seq<Row> {
    SortById(GroupedRows(q, db))
  }

  // ---------------------------------------------------------------------
  // The four finders

  function Run(db: seq<Bucket>, q: Result<CriteriaQuery, QueryError>): Result<seq<Row>, QueryError> {
    match q
    case Success(query) => Success(Execute(query, db))
    case Failure(e) => Failure(e)
  }

  function FindBucketContainingKindListAndContentTypeAndObjectName(
    db: seq<Bucket>, kindList: Option<seq<string>>, contentType: Option<string>, objectName: Option<string>)
    : (r: Result<seq<Row>, QueryError>)
    ensures r.Failure? <==> kindList.None?
    ensures r.Success? ==> IsSearchResult(Filters(None, kindList.value, contentType, objectName), db, r.value)
  {
    if kindList.None? then Failure(NullKindList)
    else
      ExecuteMeaning(Filters(None, kindList.value, contentType, objectName), db);
      Run(db, Criteria(None, kindList, contentType, objectName))
  }

  function FindBucketByOwnerContainingKindListAndContentTypeAndObjectName(
    db: seq<Bucket>, owners: Option<seq<string>>, kindList: Option<seq<string>>,
    contentType: Option<string>, objectName: Option<string>)
    : (r: Result<seq<Row>, QueryError>)
    ensures r.Failure? <==> kindList.None?
    ensures r.Success? ==> IsSearchResult(Filters(owners, kindList.value, contentType, objectName), db, r.value)
  {
    if kindList.None? then Failure(NullKindList)
    else
      ExecuteMeaning(Filters(owners, kindList.value, contentType, objectName), db);
      Run(db, Criteria(owners, kindList, contentType, objectName))
  }

  function FindBucketByOwnerContainingKindList(
    db: seq<Bucket>, owners: Option<seq<string>>, kindList: Option<seq<string>>)
    : (r: Result<seq<Row>, QueryError>)
    ensures r.Failure? <==> kindList.None?
    ensures r.Success? ==> IsSearchResult(Filters(owners, kindList.value, None, None), db, r.value)
  {
    if kindList.None? then Failure(NullKindList)
    else
      ExecuteMeaning(Filters(owners, kindList.value, None, None), db);
      Run(db, Criteria(owners, kindList, None, None))
  }

  function FindBucketContainingKindList(db: seq<Bucket>, kindList: Option<seq<string>>)
    : (r: Result<seq<Row>, QueryError>)
    ensures r.Failure? <==> kindList.None?
    ensures r.Success? ==> IsSearchResult(Filters(None, kindList.value, None, None), db, r.value)
  {
    if kindList.None? then Failure(NullKindList)
    else
      ExecuteMeaning(Filters(None, kindList.value, None, None), db);
      Run(db, Criteria(None, kindList, None, None))
  }

  // ---------------------------------------------------------------------
  // Reference meaning of a search, stated without predicates or NULLs

  predicate OwnerPasses(f: Filters, b: Bucket) {
    f.owners.None? || b.owner in f.owners.value
  }

  predicate KindPasses(f: Filters, o: CatalogObject) {
    |f.kinds| == 0 || exists k :: k in f.kinds && LikeMatches(o.kindLower, Lower(k) + "%")
  }

  /** The object-level filters that are present all accept `o`. */
  predicate ObjectPasses(f: Filters, o: CatalogObject) {
    KindPasses(f, o)
    && (f.contentType.Some? ==> LikeMatches(o.contentTypeLower, Lower(f.contentType.value) + "%"))
    && (f.objectName.Some? ==> LikeMatches(o.nameLower, "%" + Lower(f.objectName.value) + "%"))
  }

  predicate HasObjectFilter(f: Filters) {
    |f.kinds| > 0 || f.contentType.Some? || f.objectName.Some?
  }

  /** Which joined rows the search keeps. */
  predicate RowPasses(f: Filters, b: Bucket, o: Option<CatalogObject>) {
    OwnerPasses(f, b) && (if o.None? then !HasObjectFilter(f) else ObjectPasses(f, o.value))
  }

  function CountMatching(f: Filters, objs: seq<CatalogObject>): nat {
    if objs == [] then 0 else (if ObjectPasses(f, objs[0]) then 1 else 0) + CountMatching(f, objs[1..])
  }

  /** The row a bucket contributes: it survives within the owners when no object filter is given or some object matches. */
  function ExpectedRows(f: Filters, b: Bucket): seq<Row> {
    var n := CountMatching(f, b.catalogObjects);
    if OwnerPasses(f, b) && (n > 0 || !HasObjectFilter(f)) then [Row(b.bucketName, b.owner, n, b.id)] else []
  }

  function AllExpectedRows(f: Filters, db: seq<Bucket>): seq<Row> {
    if db == [] then [] else ExpectedRows(f, db[0]) + AllExpectedRows(f, db[1..])
  }

  /** The rows of a search: the expected rows of all buckets, ascending by id. */
  predicate IsSearchResult(f: Filters, db: seq<Bucket>, rows: seq<Row>) {
    SortedById(rows) && multiset(rows) == multiset(AllExpectedRows(f, db))
  }

  // ---------------------------------------------------------------------
  // Lemmas: the built query means the reference filter

  lemma {:induction false} FoldAndTrue(ts: seq<Truth>)
    ensures Fold(And, ts) == True <==> forall i :: 0 <= i < |ts| ==> ts[i] == True
  {
    if ts != [] {
      FoldAndTrue(ts[1..]);
      assert forall i :: 1 <= i < |ts| ==> ts[i] == ts[1..][i - 1];
    }
  }

  lemma {:induction false} FoldOrTrue(ts: seq<Truth>)
    ensures Fold(Or, ts) == True <==> exists i :: 0 <= i < |ts| && ts[i] == True
  {
    if ts != [] {
      FoldOrTrue(ts[1..]);
      assert forall i :: 1 <= i < |ts| ==> ts[i] == ts[1..][i - 1];
      if exists i :: 0 <= i < |ts| && ts[i] == True {
        var i :| 0 <= i < |ts| && ts[i] == True;
        if i > 0 { assert ts[1..][i - 1] == True; }
      }
    }
  }

  /** Passing a lone predicate through unwrapped changes nothing, in all three truth values. */
  lemma UnwrappedMeansCombined(j: Junction, ps: seq<Predicate>, b: Bucket, o: Option<CatalogObject>)
    requires |ps| > 0
    ensures Eval(Unwrapped(j, ps), b, o) == Eval(Combined(j, ps), b, o)
  {
    if |ps| == 1 {
      var ts := seq(|ps|, i requires 0 <= i < |ps| => Eval(ps[i], b, o));
      assert Eval(Combined(j, ps), b, o) == Fold(j, ts);
      assert ts == [Eval(ps[0], b, o)];
      assert Fold(j, ts) == Apply(j, ts[0], Fold(j, []));
    }
  }

  /** Every predicate of `ps` is TRUE on the row (b, o). */
  predicate AllHold(ps: seq<Predicate>, b: Bucket, o: Option<CatalogObject>) {
    forall p :: p in ps ==> Eval(p, b, o) == True
  }

  lemma AllHoldAppend(xs: seq<Predicate>, ys: seq<Predicate>, b: Bucket, o: Option<CatalogObject>)
    ensures AllHold(xs + ys, b, o) <==> AllHold(xs, b, o) && AllHold(ys, b, o)
  {
    assert forall p :: p in xs + ys <==> p in xs || p in ys;
  }

  lemma AllHoldSingle(p: Predicate, b: Bucket, o: Option<CatalogObject>)
    ensures AllHold([p], b, o) <==> Eval(p, b, o) == True
  {
    assert p in [p];
  }

  lemma AllTrue(ps: seq<Predicate>, b: Bucket, o: Option<CatalogObject>)
    requires |ps| > 0
    ensures Eval(Unwrapped(And, ps), b, o) == True <==> AllHold(ps, b, o)
  {
    UnwrappedMeansCombined(And, ps, b, o);
    var ts := seq(|ps|, i requires 0 <= i < |ps| => Eval(ps[i], b, o));
    assert Eval(Combined(And, ps), b, o) == Fold(And, ts);
    FoldAndTrue(ts);
    if AllHold(ps, b, o) {
      forall i | 0 <= i < |ts| ensures ts[i] == True {
        assert ps[i] in ps;
      }
    }
    if forall i :: 0 <= i < |ts| ==> ts[i] == True {
      forall p | p in ps ensures Eval(p, b, o) == True {
        var i :| 0 <= i < |ps| && ps[i] == p;
        assert ts[i] == True;
      }
    }
  }

  /** The kind predicate holds exactly on objects whose kind matches one listed prefix pattern; never on the NULL row. */
  lemma KindPredicateMeaning(kinds: seq<string>, b: Bucket, o: Option<CatalogObject>)
    requires |kinds| > 0
    ensures Eval(Unwrapped(Or, KindPredicates(kinds)), b, o) == True
        <==> o.Some? && KindPasses(Filters(None, kinds, None, None), o.value)
  {
    var ps := KindPredicates(kinds);
    UnwrappedMeansCombined(Or, ps, b, o);
    var ts := seq(|ps|, i requires 0 <= i < |ps| => Eval(ps[i], b, o));
    assert Eval(Combined(Or, ps), b, o) == Fold(Or, ts);
    FoldOrTrue(ts);
    if o.Some? && KindPasses(Filters(None, kinds, None, None), o.value) {
      var k :| k in kinds && LikeMatches(o.value.kindLower, Lower(k) + "%");
      var i :| 0 <= i < |kinds| && kinds[i] == k;
      assert ts[i] == True;
    }
    if exists i :: 0 <= i < |ts| && ts[i] == True {
      var i :| 0 <= i < |ts| && ts[i] == True;
      assert kinds[i] in kinds;
    }
  }

  /** The WHERE clause of the built query keeps exactly the rows `RowPasses` describes. */
  lemma QueryMeaning(f: Filters, b: Bucket, o: Option<CatalogObject>)
    ensures Selects(QueryFor(f), b, o) <==> RowPasses(f, b, o)
  {
    var all := AllPredicates(f);
    var kindPart := if |f.kinds| > 0 then [Unwrapped(Or, KindPredicates(f.kinds))] else [];
    var ctPart := if f.contentType.Some? then [ContentTypeLike(f.contentType.value)] else [];
    var namePart := if f.objectName.Some? then [ObjectNameLike(f.objectName.value)] else [];
    var ownerPart := if f.owners.Some? then [OwnerIn(f.owners.value)] else [];
    assert all == kindPart + ctPart + namePart + ownerPart;
    AllHoldAppend(kindPart, ctPart, b, o);
    AllHoldAppend(kindPart + ctPart, namePart, b, o);
    AllHoldAppend(kindPart + ctPart + namePart, ownerPart, b, o);
    if |f.kinds| > 0 {
      KindPredicateMeaning(f.kinds, b, o);
      AllHoldSingle(kindPart[0], b, o);
    }
    if f.contentType.Some? {
      AllHoldSingle(ctPart[0], b, o);
    }
    if f.objectName.Some? {
      AllHoldSingle(namePart[0], b, o);
    }
    if f.owners.Some? {
      AllHoldSingle(ownerPart[0], b, o);
    }
    if |all| > 0 {
      AllTrue(all, b, o);
    }
  }

  /** Building the query fails on a null kind list and otherwise keeps exactly the passing rows. */
  lemma CriteriaMeaning(owners: Option<seq<string>>, kindList: Option<seq<string>>,
                        contentType: Option<string>, objectName: Option<string>, b: Bucket, o: Option<CatalogObject>)
    ensures Criteria(owners, kindList, contentType, objectName).Failure? <==> kindList.None?
    ensures kindList.Some? ==>
      (Selects(Criteria(owners, kindList, contentType, objectName).value, b, o)
       <==> RowPasses(Filters(owners, kindList.value, contentType, objectName), b, o))
  {
    if kindList.Some? {
      QueryMeaning(Filters(owners, kindList.value, contentType, objectName), b, o);
    }
  }

  /** With no filter at all the query has no WHERE clause; with exactly one, that predicate stands alone. */
  lemma WhereShape(f: Filters)
    ensures QueryFor(f).where.None? <==> f.owners.None? && f.kinds == [] && f.contentType.None? && f.objectName.None?
    ensures f.owners.None? && f.contentType.None? && f.objectName.None? && |f.kinds| == 1
      ==> QueryFor(f).where == Some(KindLike(f.kinds[0]))
    ensures f.owners.None? && f.kinds == [] && f.contentType.None? && f.objectName.Some?
      ==> QueryFor(f).where == Some(ObjectNameLike(f.objectName.value))
  {
    if f.owners.None? && f.contentType.None? && f.objectName.None? && |f.kinds| == 1 {
      assert KindPredicates(f.kinds) == [KindLike(f.kinds[0])];
    }
  }

  // ---------------------------------------------------------------------
  // Lemmas: execution means the reference rows

  lemma {:induction false} SurvivingObjects(f: Filters, b: Bucket, objs: seq<CatalogObject>)
    ensures CountNonNull(Surviving(QueryFor(f), b, SomeAll(objs))) == |Surviving(QueryFor(f), b, SomeAll(objs))|
    ensures |Surviving(QueryFor(f), b, SomeAll(objs))| == if OwnerPasses(f, b) then CountMatching(f, objs) else 0
  {
    if objs != [] {
      var q := QueryFor(f);
      QueryMeaning(f, b, Some(objs[0]));
      SurvivingObjects(f, b, objs[1..]);
      var rows := SomeAll(objs);
      assert rows[0] == Some(objs[0]) && rows[1..] == SomeAll(objs[1..]);
      var rest := Surviving(q, b, rows[1..]);
      if Selects(q, b, rows[0]) {
        assert Surviving(q, b, rows) == [rows[0]] + rest;
        assert ([rows[0]] + rest)[1..] == rest;
      } else {
        assert Surviving(q, b, rows) == rest;
      }
    }
  }

  lemma {:induction false} AllMatchWithoutFilter(f: Filters, objs: seq<CatalogObject>)
    requires !HasObjectFilter(f)
    ensures CountMatching(f, objs) == |objs|
  {
    if objs != [] {
      AllMatchWithoutFilter(f, objs[1..]);
    }
  }

  /** The group a bucket forms is the reference row. */
  lemma BucketRowsMeaning(f: Filters, b: Bucket)
    ensures BucketRows(QueryFor(f), b) == ExpectedRows(f, b)
  {
    var q := QueryFor(f);
    if b.catalogObjects == [] {
      QueryMeaning(f, b, None);
      assert Surviving(q, b, [None]) == (if RowPasses(f, b, None) then [None] else []);
    } else {
      SurvivingObjects(f, b, b.catalogObjects);
      if !HasObjectFilter(f) {
        AllMatchWithoutFilter(f, b.catalogObjects);
      }
    }
  }

  lemma {:induction false} GroupedRowsMeaning(f: Filters, db: seq<Bucket>)
    ensures GroupedRows(QueryFor(f), db) == AllExpectedRows(f, db)
  {
    if db != [] {
      BucketRowsMeaning(f, db[0]);
      GroupedRowsMeaning(f, db[1..]);
    }
  }

  /** Executing the built query yields the reference rows sorted by id. */
  lemma ExecuteMeaning(f: Filters, db: seq<Bucket>)
    ensures IsSearchResult(f, db, Execute(QueryFor(f), db))
  {
    GroupedRowsMeaning(f, db);
  }

  lemma {:induction false} ExpectedRowsFromBuckets(f: Filters, db: seq<Bucket>, r: Row)
    ensures r in AllExpectedRows(f, db) <==> exists b :: b in db && ExpectedRows(f, b) == [r]
  {
    if db != [] {
      ExpectedRowsFromBuckets(f, db[1..], r);
      if exists b :: b in db && ExpectedRows(f, b) == [r] {
        var b :| b in db && ExpectedRows(f, b) == [r];
        if b != db[0] {
          assert b in db[1..];
        }
      }
      if exists b :: b in db[1..] && ExpectedRows(f, b) == [r] {
        var b :| b in db[1..] && ExpectedRows(f, b) == [r];
        assert b in db;
      }
    }
  }

  /** A row of a search result comes from a bucket of the table, and every bucket's reference row is in it. */
  lemma SearchRowsFromBuckets(f: Filters, db: seq<Bucket>, rows: seq<Row>, r: Row)
    requires IsSearchResult(f, db, rows)
    ensures r in rows <==> exists b :: b in db && ExpectedRows(f, b) == [r]
  {
    assert r in rows <==> r in multiset(rows);
    assert r in AllExpectedRows(f, db) <==> r in multiset(AllExpectedRows(f, db));
    ExpectedRowsFromBuckets(f, db, r);
  }

  lemma {:induction false} CountMatchingPositive(f: Filters, objs: seq<CatalogObject>)
    ensures CountMatching(f, objs) > 0 <==> exists o :: o in objs && ObjectPasses(f, o)
  {
    if objs != [] {
      CountMatchingPositive(f, objs[1..]);
      if exists o :: o in objs && ObjectPasses(f, o) {
        var o :| o in objs && ObjectPasses(f, o);
        if o != objs[0] { assert o in objs[1..]; }
      }
      assert forall o :: o in objs[1..] ==> o in objs;
    }
  }

  /** Within the owners, and either no object-level filter is given or one of its objects passes them all. */
  predicate BucketSurvives(f: Filters, b: Bucket) {
    OwnerPasses(f, b) && (!HasObjectFilter(f) || exists o :: o in b.catalogObjects && ObjectPasses(f, o))
  }

  lemma SameIdSameBucket(db: seq<Bucket>, b: Bucket, b': Bucket)
    requires UniqueBucketIds(db) && b in db && b' in db && b.id == b'.id
    ensures b == b'
  {
    var i :| 0 <= i < |db| && db[i] == b;
    var j :| 0 <= j < |db| && db[j] == b';
    assert !(i < j) && !(j < i);
  }

  lemma SearchRowOfBucket(f: Filters, db: seq<Bucket>, rows: seq<Row>, b: Bucket)
    requires IsSearchResult(f, db, rows) && UniqueBucketIds(db) && b in db
    ensures (exists r :: r in rows && r.id == b.id) <==> BucketSurvives(f, b)
    ensures forall r :: (r in rows && r.id == b.id ==> r == Row(b.bucketName, b.owner, CountMatching(f, b.catalogObjects), b.id))
  {
    CountMatchingPositive(f, b.catalogObjects);
    forall r | r in rows && r.id == b.id
      ensures r == Row(b.bucketName, b.owner, CountMatching(f, b.catalogObjects), b.id) && BucketSurvives(f, b)
    {
      SearchRowsFromBuckets(f, db, rows, r);
      var b' :| b' in db && ExpectedRows(f, b') == [r];
      SameIdSameBucket(db, b, b');
    }
    if BucketSurvives(f, b) {
      var r := Row(b.bucketName, b.owner, CountMatching(f, b.catalogObjects), b.id);
      assert ExpectedRows(f, b) == [r];
      SearchRowsFromBuckets(f, db, rows, r);
    }
  }

  /**
   * A bucket appears in the result iff it is within the owners and either no
   * object-level filter is given or one of its objects passes them all; its
   * count is then the number of its passing objects (0 for an empty bucket).
   */
  lemma BucketAppearsIff(f: Filters, db: seq<Bucket>, b: Bucket)
    requires UniqueBucketIds(db) && b in db
    ensures (exists r :: r in Execute(QueryFor(f), db) && r.id == b.id)
        <==> OwnerPasses(f, b) && (!HasObjectFilter(f) || exists o :: o in b.catalogObjects && ObjectPasses(f, o))
    ensures forall r :: (r in Execute(QueryFor(f), db) && r.id == b.id
        ==> r == Row(b.bucketName, b.owner, CountMatching(f, b.catalogObjects), b.id))
  {
    ExecuteMeaning(f, db);
    SearchRowOfBucket(f, db, Execute(QueryFor(f), db), b);
  }

  /** Sanity instance: kinds ["work"]; a bucket holding a "workflow" object appears, an empty bucket does not. */
  lemma KindScenario(a: Bucket, c: Bucket)
    requires a.id != c.id && a.catalogObjects == [CatalogObject("w", "w", "workflow", "workflow", "", "")]
    requires c.catalogObjects == []
    ensures (exists r :: r in Execute(QueryFor(Filters(None, ["work"], None, None)), [a, c]) && r.id == a.id)
    ensures !(exists r :: r in Execute(QueryFor(Filters(None, ["work"], None, None)), [a, c]) && r.id == c.id)
  {
    var f := Filters(None, ["work"], None, None);
    var o := a.catalogObjects[0];
    assert Lower("work") == "work";
    LikePrefix("workflow", "work");
    assert "work" <= "workflow";
    assert KindPasses(f, o) by { assert "work" in f.kinds; }
    assert o in a.catalogObjects;
    BucketAppearsIff(f, [a, c], a);
    BucketAppearsIff(f, [a, c], c);
  }

  // ---------------------------------------------------------------------
  // Lemmas: ordering and one row per bucket

  lemma UniqueBucketIdsTail(db: seq<Bucket>)
    requires db != [] && UniqueBucketIds(db)
    ensures UniqueBucketIds(db[1..])
    ensures forall k :: 0 <= k < |db[1..]| ==> db[1..][k].id != db[0].id
  {
    forall i, j | 0 <= i < j < |db[1..]| ensures db[1..][i].id != db[1..][j].id {
      assert db[1..][i] == db[i + 1] && db[1..][j] == db[j + 1];
    }
  }

  /** Prepending one bucket's rows keeps ids distinct when the tail's ids all belong to other buckets. */
  lemma DistinctAppend(head: seq<Row>, tail: seq<Row>, id: int)
    requires |head| <= 1 && (forall r :: r in head ==> r.id == id)
    requires DistinctIds(tail) && (forall r :: r in tail ==> r.id != id)
    ensures DistinctIds(head + tail)
  {
    var all := head + tail;
    forall i, j | 0 <= i < j < |all| ensures all[i].id != all[j].id {
      assert all[j] == tail[j - |head|] && all[j] in tail;
      if i >= |head| {
        assert all[i] == tail[i - |head|];
      } else {
        assert all[i] in head;
      }
    }
  }

  lemma {:induction false} GroupedRowIds(q: CriteriaQuery, db: seq<Bucket>)
    ensures forall r :: r in GroupedRows(q, db) ==> exists k :: 0 <= k < |db| && db[k].id == r.id
    ensures UniqueBucketIds(db) ==> DistinctIds(GroupedRows(q, db))
  {
    if db != [] {
      GroupedRowIds(q, db[1..]);
      var head := BucketRows(q, db[0]);
      var tail := GroupedRows(q, db[1..]);
      assert forall r :: r in head ==> r.id == db[0].id;
      forall r: Row | r in head + tail ensures exists k :: 0 <= k < |db| && db[k].id == r.id {
        if r in tail {
          var k :| 0 <= k < |db[1..]| && db[1..][k].id == r.id;
          assert db[k + 1].id == r.id;
        } else {
          assert db[0].id == r.id;
        }
      }
      if UniqueBucketIds(db) {
        UniqueBucketIdsTail(db);
        forall r: Row | r in tail ensures r.id != db[0].id {
          var k :| 0 <= k < |db[1..]| && db[1..][k].id == r.id;
        }
        DistinctAppend(head, tail, db[0].id);
      }
    }
  }

  /** The result is ordered by ascending bucket id; with unique bucket ids there is at most one row per id. */
  lemma ResultOrdered(q: CriteriaQuery, db: seq<Bucket>)
    ensures SortedById(Execute(q, db))
    ensures UniqueBucketIds(db) ==> StrictlySortedById(Execute(q, db))
    ensures forall r :: r in Execute(q, db) ==> exists k :: 0 <= k < |db| && db[k].id == r.id
  {
    var grouped := GroupedRows(q, db);
    GroupedRowIds(q, db);
    forall r: Row | r in Execute(q, db) ensures exists k :: 0 <= k < |db| && db[k].id == r.id {
      assert r in multiset(grouped);
      assert r in grouped;
    }
  }

  // ---------------------------------------------------------------------
  // Lemmas: adding filters only narrows the result

  /** `narrow` keeps every filter of `wide` unchanged and may add more. */
  predicate Narrows(narrow: Filters, wide: Filters) {
    (wide.owners.Some? ==> narrow.owners == wide.owners)
    && (|wide.kinds| > 0 ==> narrow.kinds == wide.kinds)
    && (wide.contentType.Some? ==> narrow.contentType == wide.contentType)
    && (wide.objectName.Some? ==> narrow.objectName == wide.objectName)
  }

  lemma {:induction false} CountMatchingNarrows(narrow: Filters, wide: Filters, objs: seq<CatalogObject>)
    requires Narrows(narrow, wide)
    ensures CountMatching(narrow, objs) <= CountMatching(wide, objs)
  {
    if objs != [] {
      CountMatchingNarrows(narrow, wide, objs[1..]);
    }
  }

  lemma NarrowedRow(narrow: Filters, wide: Filters, db: seq<Bucket>, rowsN: seq<Row>, rowsW: seq<Row>, r: Row)
    requires Narrows(narrow, wide) && IsSearchResult(narrow, db, rowsN) && IsSearchResult(wide, db, rowsW)
    requires r in rowsN
    ensures exists r' :: r' in rowsW
              && r'.id == r.id && r'.bucketName == r.bucketName && r'.owner == r.owner && r.count <= r'.count
  {
    SearchRowsFromBuckets(narrow, db, rowsN, r);
    var b :| b in db && ExpectedRows(narrow, b) == [r];
    CountMatchingNarrows(narrow, wide, b.catalogObjects);
    var r' := Row(b.bucketName, b.owner, CountMatching(wide, b.catalogObjects), b.id);
    assert ExpectedRows(wide, b) == [r'];
    SearchRowsFromBuckets(wide, db, rowsW, r');
  }

  /** Adding a filter never adds a row and never raises a count. */
  lemma NarrowingNeverAddsRows(narrow: Filters, wide: Filters, db: seq<Bucket>, r: Row)
    requires Narrows(narrow, wide)
    requires r in Execute(QueryFor(narrow), db)
    ensures exists r' :: r' in Execute(QueryFor(wide), db)
              && r'.id == r.id && r'.bucketName == r.bucketName && r'.owner == r.owner && r.count <= r'.count
  {
    ExecuteMeaning(narrow, db);
    ExecuteMeaning(wide, db);
    NarrowedRow(narrow, wide, db, Execute(QueryFor(narrow), db), Execute(QueryFor(wide), db), r);
  }

  /** The result under all filters together lies within the result under each filter alone. */
  lemma CombinedWithinEachFilterAlone(f: Filters, db: seq<Bucket>, r: Row)
    requires r in Execute(QueryFor(f), db)
    ensures exists r' :: r' in Execute(QueryFor(Filters(f.owners, [], None, None)), db) && r'.id == r.id
    ensures exists r' :: r' in Execute(QueryFor(Filters(None, f.kinds, None, None)), db) && r'.id == r.id
    ensures exists r' :: r' in Execute(QueryFor(Filters(None, [], f.contentType, None)), db) && r'.id == r.id
    ensures exists r' :: r' in Execute(QueryFor(Filters(None, [], None, f.objectName)), db) && r'.id == r.id
  {
    NarrowingNeverAddsRows(f, Filters(f.owners, [], None, None), db, r);
    NarrowingNeverAddsRows(f, Filters(None, f.kinds, None, None), db, r);
    NarrowingNeverAddsRows(f, Filters(None, [], f.contentType, None), db, r);
    NarrowingNeverAddsRows(f, Filters(None, [], None, f.objectName), db, r);
  }

  // ---------------------------------------------------------------------
  // Lemmas: the LIKE patterns as case-insensitive prefix and substring tests

  predicate WildcardFree(f: Filters) {
    (forall k :: k in f.kinds ==> NoWildcards(k))
    && (f.contentType.Some? ==> NoWildcards(f.contentType.value))
    && (f.objectName.Some? ==> NoWildcards(f.objectName.value))
  }

  /**
   * When the filter text holds no `%` or `_` and the mirror columns are in
   * sync, an object passes iff its lower-cased kind starts with one listed
   * kind lower-cased, its content type starts with the given one and its name
   * contains the given one, all compared in lower case.
   */
  lemma ObjectPassesCaseInsensitive(f: Filters, o: CatalogObject)
    requires WildcardFree(f) && MirrorsInSync(o)
    ensures ObjectPasses(f, o) <==>
      (|f.kinds| == 0 || exists k :: k in f.kinds && StartsWith(Lower(o.kind), Lower(k)))
      && (f.contentType.Some? ==> StartsWith(Lower(o.contentType), Lower(f.contentType.value)))
      && (f.objectName.Some? ==> Contains(Lower(o.name), Lower(f.objectName.value)))
  {
    forall k | k in f.kinds
      ensures LikeMatches(o.kindLower, Lower(k) + "%") <==> StartsWith(Lower(o.kind), Lower(k))
    {
      LowerKeepsNoWildcards(k);
      LikePrefix(o.kindLower, Lower(k));
    }
    if f.contentType.Some? {
      LowerKeepsNoWildcards(f.contentType.value);
      LikePrefix(o.contentTypeLower, Lower(f.contentType.value));
    }
    if f.objectName.Some? {
      LowerKeepsNoWildcards(f.objectName.value);
      LikeContains(o.nameLower, Lower(f.objectName.value));
    }
  }

  // ---------------------------------------------------------------------
  // Lemmas: the finders

  /** The owner-less finders are the full finders with the owner slot null; the kind-only finders have the text slots null. */
  lemma FindersDelegate(db: seq<Bucket>, owners: Option<seq<string>>, kindList: Option<seq<string>>)
    ensures FindBucketContainingKindList(db, kindList)
         == FindBucketByOwnerContainingKindListAndContentTypeAndObjectName(db, None, kindList, None, None)
    ensures FindBucketByOwnerContainingKindList(db, owners, kindList)
         == FindBucketByOwnerContainingKindListAndContentTypeAndObjectName(db, owners, kindList, None, None)
    ensures forall ct, name :: (FindBucketContainingKindListAndContentTypeAndObjectName(db, kindList, ct, name)
         == FindBucketByOwnerContainingKindListAndContentTypeAndObjectName(db, None, kindList, ct, name))
  {
  }
}
