# Catalog bucket search and revision records, in Dafny

This project models three pieces of the ProActive catalog service:

- **The bucket search** (`BucketRepositoryImpl`). Optional filters become one
  criteria query. The filters are a kind list (OR of case-insensitive
  prefixes), a content-type prefix, an object-name substring and an owner set.
  The query LEFT JOINs buckets to their catalog objects and ANDs the
  predicates that are present. It groups by bucket, counts the surviving
  joined objects and orders by bucket id. The model has two layers. The query
  is data (`Predicate`, `CriteriaQuery`), built by `BuildCriteriaQuery` with
  the same loop, the same `if` chain and the same "a lone predicate is not
  wrapped" rule as the source. Its meaning over an in-memory table of buckets
  (`Execute`) uses SQL three-valued logic: the joined row of an empty bucket
  has NULL object columns, so every `LIKE` on it is UNKNOWN and the row is
  dropped. A reference meaning written without predicates or NULLs
  (`ExpectedRows`, `IsSearchResult`) is proved equal to it. The properties
  are proved about that reference meaning.
- **The "most recent revision" lookups** (`CatalogObjectRepository`). These
  are selections over a store of revision rows and catalog object rows. A
  revision is selected when its object's `lastCommitId` names it.
- **The revision record** (`CatalogObjectRevisionEntity`). It is a class with
  the source's fields, five constructors, a setter for every field except
  `commitId` (the source has none for it), the in-place
  tag append (which also sets each tag's back-reference) and `compareTo`. The
  Java tag list is a `MetadataList` object, shared by reference as in Java.

Files: `wrappers.dfy` (Option, Result), `sql_text.dfy` (lower-casing and SQL
`LIKE`), `bucket_repository.dfy`, `catalog_object_repository.dfy`,
`revision_entity.dfy`.

Three behaviours of the code are easy to misread:

- The count is a plain `COUNT` of the joined object names. It is not a count
  of distinct names.
- Filter text is pasted into the `LIKE` pattern unescaped, so `%` and `_` in
  it act as wildcards (`SqlText.UnderscoreInFilterIsAWildcard`). The model
  states prefix and substring meaning only for wildcard-free filter text
  (`BucketRepository.ObjectPassesCaseInsensitive`).
- A null kind list makes the builder fail (`QueryError.NullKindList`). It is
  not treated as "no restriction". An empty kind list adds no predicate.

## Model

| member | source | states |
|---|---|---|
| `SqlText.LikePrefix` | src/main/java/org/ow2/proactive/catalog/repository/BucketRepositoryImpl.java:94-98 | for wildcard-free text, `s LIKE lit%` holds iff `lit` is a prefix of `s` |
| `SqlText.LikeContains` | src/main/java/org/ow2/proactive/catalog/repository/BucketRepositoryImpl.java:100-104 | for wildcard-free text, `s LIKE %lit%` holds iff `lit` occurs in `s` at some position |
| `SqlText.UnderscoreInFilterIsAWildcard` | src/main/java/org/ow2/proactive/catalog/repository/BucketRepositoryImpl.java:83 | an `_` in the kind filter matches any character, so `work` passes the filter `w_rk` although `w_rk` is not its prefix |
| `BucketRepository.BuildCriteriaQuery` | src/main/java/org/ow2/proactive/catalog/repository/BucketRepositoryImpl.java:70-126 | the loop and `if` chain build exactly the query `Criteria` describes; a null kind list is the only failure |
| `BucketRepository.FoldOrTrue` | src/main/java/org/ow2/proactive/catalog/repository/BucketRepositoryImpl.java:89 | a three-valued OR is TRUE iff some operand is TRUE |
| `BucketRepository.FoldAndTrue` | src/main/java/org/ow2/proactive/catalog/repository/BucketRepositoryImpl.java:115 | a three-valued AND is TRUE iff every operand is TRUE |
| `BucketRepository.UnwrappedMeansCombined` | src/main/java/org/ow2/proactive/catalog/repository/BucketRepositoryImpl.java:110-119 | using a lone predicate unwrapped gives the same value as wrapping it, in all three truth values |
| `BucketRepository.KindPredicateMeaning` | src/main/java/org/ow2/proactive/catalog/repository/BucketRepositoryImpl.java:80-92 | the kind predicate is TRUE iff the row has an object whose `kindLower` matches `Lower(k)%` for some listed `k`; on the NULL row it never is |
| `BucketRepository.QueryMeaning` | src/main/java/org/ow2/proactive/catalog/repository/BucketRepositoryImpl.java:80-119 | the built WHERE clause keeps a joined row iff the bucket is within the owners and, on an object row, every present object filter accepts the object, or, on the NULL row, no object filter is given |
| `BucketRepository.CriteriaMeaning` | src/main/java/org/ow2/proactive/catalog/repository/BucketRepositoryImpl.java:70-119 | the builder fails iff the kind list is null; otherwise its query keeps exactly the rows `RowPasses` describes |
| `BucketRepository.WhereShape` | src/main/java/org/ow2/proactive/catalog/repository/BucketRepositoryImpl.java:110-119 | there is no WHERE clause iff no filter is given; a single filter (one kind, or only a name) is the WHERE clause itself |
| `BucketRepository.SortById` | src/main/java/org/ow2/proactive/catalog/repository/BucketRepositoryImpl.java:75 | the rows come out in ascending id order and are a permutation of the grouped rows; with distinct ids the order is strict |
| `BucketRepository.SurvivingObjects` | src/main/java/org/ow2/proactive/catalog/repository/BucketRepositoryImpl.java:120-124 | for a bucket with objects, the surviving joined rows are all non-NULL and number the passing objects, or zero outside the owners |
| `BucketRepository.BucketRowsMeaning` | src/main/java/org/ow2/proactive/catalog/repository/BucketRepositoryImpl.java:76-124 | each bucket's group after LEFT JOIN, WHERE and COUNT is the reference row: present iff within the owners and (no object filter or some object passes), with the number of passing objects as count |
| `BucketRepository.GroupedRowsMeaning` | src/main/java/org/ow2/proactive/catalog/repository/BucketRepositoryImpl.java:120-124 | grouping the whole table gives the reference rows of all buckets |
| `BucketRepository.ExecuteMeaning` | src/main/java/org/ow2/proactive/catalog/repository/BucketRepositoryImpl.java:75-124 | executing the built query yields the reference rows, sorted by ascending id |
| `BucketRepository.SearchRowsFromBuckets` | src/main/java/org/ow2/proactive/catalog/repository/BucketRepositoryImpl.java:120-124 | a row is in a search result iff some bucket of the table contributes exactly that row |
| `BucketRepository.BucketAppearsIff` | src/main/java/org/ow2/proactive/catalog/repository/BucketRepositoryImpl.java:76-124 | with unique bucket ids, a bucket appears iff it is within the owners and either no object filter is given or one of its objects passes all of them; its row is (name, owner, number of passing objects, id), so an empty bucket has count 0 |
| `BucketRepository.SearchRowOfBucket` | src/main/java/org/ow2/proactive/catalog/repository/BucketRepositoryImpl.java:120-124 | the same statement for any sequence of rows that is a search result |
| `BucketRepository.KindScenario` | src/main/java/org/ow2/proactive/catalog/repository/BucketRepositoryImpl.java:80-92 | with kinds ["work"], a bucket holding a "workflow" object appears and an empty bucket does not |
| `BucketRepository.GroupedRowIds` | src/main/java/org/ow2/proactive/catalog/repository/BucketRepositoryImpl.java:124 | every grouped row carries the id of a bucket of the table; with unique bucket ids no two grouped rows share an id |
| `BucketRepository.ResultOrdered` | src/main/java/org/ow2/proactive/catalog/repository/BucketRepositoryImpl.java:75-124 | for any query, the result is ordered by ascending bucket id; with unique bucket ids there is at most one row per id, and every row's id is a bucket's id |
| `BucketRepository.CountMatchingNarrows` | src/main/java/org/ow2/proactive/catalog/repository/BucketRepositoryImpl.java:110-119 | with more filters, no more objects of a bucket pass |
| `BucketRepository.NarrowingNeverAddsRows` | src/main/java/org/ow2/proactive/catalog/repository/BucketRepositoryImpl.java:110-119 | adding filters never adds a row and never raises a count: each row under the narrower filters has a row for the same bucket, with at least its count, under the wider ones |
| `BucketRepository.CombinedWithinEachFilterAlone` | src/main/java/org/ow2/proactive/catalog/repository/BucketRepositoryImpl.java:110-119 | every bucket in the result under all filters is also in the result under each filter applied alone |
| `BucketRepository.ObjectPassesCaseInsensitive` | src/main/java/org/ow2/proactive/catalog/repository/BucketRepositoryImpl.java:80-104 | for wildcard-free filter text and in-sync mirror columns, an object passes iff its lower-cased kind starts with some lower-cased listed kind, its lower-cased content type starts with the lower-cased filter, and its lower-cased name contains the lower-cased filter |
| `BucketRepository.FindBucketContainingKindListAndContentTypeAndObjectName` | src/main/java/org/ow2/proactive/catalog/repository/BucketRepositoryImpl.java:47-51 | fails iff the kind list is null; otherwise returns the search result with no owner restriction |
| `BucketRepository.FindBucketByOwnerContainingKindListAndContentTypeAndObjectName` | src/main/java/org/ow2/proactive/catalog/repository/BucketRepositoryImpl.java:54-58 | fails iff the kind list is null; otherwise returns the search result under all four filters |
| `BucketRepository.FindBucketByOwnerContainingKindList` | src/main/java/org/ow2/proactive/catalog/repository/BucketRepositoryImpl.java:61-63 | fails iff the kind list is null; otherwise returns the search result with no content-type or name filter |
| `BucketRepository.FindBucketContainingKindList` | src/main/java/org/ow2/proactive/catalog/repository/BucketRepositoryImpl.java:66-68 | fails iff the kind list is null; otherwise returns the search result under the kind list alone |
| `BucketRepository.FindersDelegate` | src/main/java/org/ow2/proactive/catalog/repository/BucketRepositoryImpl.java:61-68 | the owner-less finders equal the full finder with a null owner set; the kind-only finders equal it with null content type and name |
| `CatalogObjectRepository.MostRecentAmong` | src/main/java/org/ow2/proactive/catalog/rest/service/repository/CatalogObjectRepository.java:43 | the selection keeps exactly the revisions in the bucket whose object's `lastCommitId` is their commit id |
| `CatalogObjectRepository.GetMostRecentRevisions` | src/main/java/org/ow2/proactive/catalog/rest/service/repository/CatalogObjectRepository.java:43-44 | every returned revision is a stored revision, has the given bucket id and is the one its object's `lastCommitId` names; every stored revision of that kind is returned |
| `CatalogObjectRepository.MostRecentAmongUnique` | src/main/java/org/ow2/proactive/catalog/rest/service/repository/CatalogObjectRepository.java:43 | the selection keeps commit ids unique |
| `CatalogObjectRepository.AtMostOnePerObject` | src/main/java/org/ow2/proactive/catalog/rest/service/repository/CatalogObjectRepository.java:43 | with unique commit ids, no two returned revisions belong to the same catalog object |
| `CatalogObjectRepository.MatchingObjectRevisions` | src/main/java/org/ow2/proactive/catalog/rest/service/repository/CatalogObjectRepository.java:46 | the selection keeps exactly the revisions in the bucket, of object `objectId`, whose commit id is that object's `lastCommitId` |
| `CatalogObjectRepository.GetMostRecentCatalogObjectRevision` | src/main/java/org/ow2/proactive/catalog/rest/service/repository/CatalogObjectRepository.java:46-47 | a found revision is stored, in the bucket, of object `objectId`, and named by its `lastCommitId`; it returns null iff no stored revision satisfies these conditions |
| `CatalogObjectRepository.SingleLookupNeverFails` | src/main/java/org/ow2/proactive/catalog/rest/service/repository/CatalogObjectRepository.java:46-47 | with unique commit ids, at most one row matches, so the single-result lookup never fails |
| `CatalogObjectRepository.SingleLookupFailsOnlyOnDuplicates` | src/main/java/org/ow2/proactive/catalog/rest/service/repository/CatalogObjectRepository.java:46-47 | the lookup fails only when two stored revisions of that object share a commit id |
| `CatalogObjectRepository.SingleLookupWithinBucketLookup` | src/main/java/org/ow2/proactive/catalog/rest/service/repository/CatalogObjectRepository.java:43-47 | a revision the single-object lookup finds is also returned by `getMostRecentRevisions` for that bucket |
| `RevisionEntity.CatalogObjectRevisionEntity.constructor` | src/main/java/org/ow2/proactive/catalog/rest/entity/CatalogObjectRevisionEntity.java:97-99 | every field is null except a fresh, empty tag list |
| `RevisionEntity.CatalogObjectRevisionEntity.WithContent` | src/main/java/org/ow2/proactive/catalog/rest/entity/CatalogObjectRevisionEntity.java:101-111 | stores kind, commit date, name, commit message, bucket id, content type and raw object as given; commit id and catalog object stay null; the tag list is fresh and empty |
| `RevisionEntity.CatalogObjectRevisionEntity.WithCommitIdAndMetadata` | src/main/java/org/ow2/proactive/catalog/rest/entity/CatalogObjectRevisionEntity.java:113-118 | also stores the commit id, and stores the given list object itself without touching its tags |
| `RevisionEntity.CatalogObjectRevisionEntity.WithMetadata` | src/main/java/org/ow2/proactive/catalog/rest/entity/CatalogObjectRevisionEntity.java:120-124 | stores the seven fields and the given list object itself, without touching its tags; commit id stays null |
| `RevisionEntity.CatalogObjectRevisionEntity.WithCommitId` | src/main/java/org/ow2/proactive/catalog/rest/entity/CatalogObjectRevisionEntity.java:126-130 | stores the seven fields and the commit id; the tag list is fresh and empty |
| `RevisionEntity.MetadataList.Add` | src/main/java/org/ow2/proactive/catalog/rest/entity/CatalogObjectRevisionEntity.java:141 | the entry is appended at the end of the list |
| `RevisionEntity.KeyValueMetadataEntity.SetCatalogObjectRevision` | src/main/java/org/ow2/proactive/catalog/rest/entity/CatalogObjectRevisionEntity.java:142 | the tag's back-reference is set and nothing else of it changes |
| `RevisionEntity.CatalogObjectRevisionEntity.AddKeyValue` | src/main/java/org/ow2/proactive/catalog/rest/entity/CatalogObjectRevisionEntity.java:140-143 | needs a non-null list; appends the entry at the end, earlier entries unchanged, points the entry's back-reference at this revision, and leaves every field of the revision as it was |
| `RevisionEntity.CatalogObjectRevisionEntity.AddKeyValueList` | src/main/java/org/ow2/proactive/catalog/rest/entity/CatalogObjectRevisionEntity.java:145-147 | appends every entry in iteration order (the list grows by exactly the collection), points each entry back at this revision, and needs a non-null list only when the collection is non-empty |
| `RevisionEntity.CatalogObjectRevisionEntity.SetBucketId` | src/main/java/org/ow2/proactive/catalog/rest/entity/CatalogObjectRevisionEntity.java:181-183 | the new state is the old one with only `bucketId` replaced |
| `RevisionEntity.CatalogObjectRevisionEntity.SetCommitDate` | src/main/java/org/ow2/proactive/catalog/rest/entity/CatalogObjectRevisionEntity.java:185-187 | the new state is the old one with only `commitDate` replaced |
| `RevisionEntity.CatalogObjectRevisionEntity.SetKind` | src/main/java/org/ow2/proactive/catalog/rest/entity/CatalogObjectRevisionEntity.java:189-191 | the new state is the old one with only `kind` replaced |
| `RevisionEntity.CatalogObjectRevisionEntity.SetName` | src/main/java/org/ow2/proactive/catalog/rest/entity/CatalogObjectRevisionEntity.java:193-195 | the new state is the old one with only `name` replaced |
| `RevisionEntity.CatalogObjectRevisionEntity.SetCatalogObject` | src/main/java/org/ow2/proactive/catalog/rest/entity/CatalogObjectRevisionEntity.java:197-199 | the new state is the old one with only `catalogObject` replaced |
| `RevisionEntity.CatalogObjectRevisionEntity.SetCommitMessage` | src/main/java/org/ow2/proactive/catalog/rest/entity/CatalogObjectRevisionEntity.java:201-203 | the new state is the old one with only `commitMessage` replaced |
| `RevisionEntity.CatalogObjectRevisionEntity.SetContentType` | src/main/java/org/ow2/proactive/catalog/rest/entity/CatalogObjectRevisionEntity.java:205-207 | the new state is the old one with only `contentType` replaced |
| `RevisionEntity.CatalogObjectRevisionEntity.SetKeyValueMetadataList` | src/main/java/org/ow2/proactive/catalog/rest/entity/CatalogObjectRevisionEntity.java:209-211 | the new state is the old one with only the tag-list reference replaced |
| `RevisionEntity.CatalogObjectRevisionEntity.SetRawObject` | src/main/java/org/ow2/proactive/catalog/rest/entity/CatalogObjectRevisionEntity.java:213-215 | the new state is the old one with only `rawObject` replaced |
| `RevisionEntity.CatalogObjectRevisionEntity.CompareTo` | src/main/java/org/ow2/proactive/catalog/rest/entity/CatalogObjectRevisionEntity.java:232-234 | needs both commit dates; negative iff this commit date is later, zero iff they are equal, positive iff it is earlier |
| `RevisionEntity.CompareToAntisymmetric` | src/main/java/org/ow2/proactive/catalog/rest/entity/CatalogObjectRevisionEntity.java:232-234 | sign(a.compareTo(b)) = -sign(b.compareTo(a)) |
| `RevisionEntity.CompareToTransitive` | src/main/java/org/ow2/proactive/catalog/rest/entity/CatalogObjectRevisionEntity.java:232-234 | `compareTo(...) <= 0` is transitive |
| `RevisionEntity.SortedIsNewestFirst` | src/main/java/org/ow2/proactive/catalog/rest/entity/CatalogObjectRevisionEntity.java:232-234 | a sequence ordered by `compareTo` has non-increasing commit dates: newest first |

## Left out

- `CatalogObjectRevisionController.java` is not part of this model. It does HTTP routing, session checks and grant checks, and it delegates to services that are not shown.
- Creating and restoring revisions is not modelled. This covers updating `lastCommitId`, allocating commit ids and the atomicity of revision insert plus pointer update. That code lives in services and in the database, which are not part of this model. The model does not invent it.
- JPA execution, `EntityManager` and `CriteriaBuilder` objects are not modelled. Neither the slicing nor the `Sort` that a `Pageable` may carry is modelled; Spring Data turns that `Sort` into an ORDER BY. `getMostRecentRevisions` returns all matching rows, in table order. The query text itself gives no order.
- `Lower` is ASCII lower-casing only. Locale-dependent `toLowerCase` is not modelled. The `*Lower` mirror columns are kept in sync by code that is not part of this model; `MirrorsInSync` assumes they hold the lower-cased values.
- `LIKE` is modelled without an escape character and with binary (case-sensitive) comparison. A database's default escape character or collation is not modelled.
- GROUP BY (name, owner, id) is modelled as one group per bucket row. Two bucket rows sharing all three values would be merged by SQL; this happens only with duplicate primary keys and is not modelled.
- Null elements inside the kind list, the owner list or the tag collection are not modelled. In Java they raise `NullPointerException` or match nothing.
- `AddKeyValueList` takes the collection as a snapshot sequence. Passing the revision's own tag list, which in Java fails with `ConcurrentModificationException`, is not modelled.
- `CompareTo`: returns only the sign (-1, 0, 1). `LocalDateTime.compareTo` may return other values with the same sign. Commit dates are integer timestamps.
- `CompareTo`: requires both commit dates to be present. In Java a null date on either side, a null argument, or an argument of another class throws `NullPointerException` or `ClassCastException`. Those exception paths are not modelled.
- `AddKeyValue`: requires a non-null tag list. In Java a null list throws `NullPointerException`, and that path is not modelled.
- `AddKeyValueList`: requires a non-null tag list when the collection is non-empty. The collection is a sequence, so it cannot be null. The `NullPointerException` that Java throws for a null list or a null collection is not modelled.
- An empty owner list is taken to match no bucket: `IN ()` evaluates to FALSE, so the search returns no rows. JPA requires at least one element in an `IN` list, and providers and databases reject an empty list or treat it differently. That behaviour is not modelled.
- The object columns `kindLower`, `contentTypeLower` and `nameLower` are assumed non-NULL. A stored object with a NULL column, such as a NULL content type, cannot be represented. SQL would evaluate a filter on that column to UNKNOWN and drop the row.
- The `CatalogObject` entity is not part of this model. The JPQL path `cor.catalogObject.commitId` in `getMostRecentCatalogObjectRevision` is assumed to be the catalog object's key, which is the key of the `catalogObjects` map.
- `KeyValueMetadataEntity` is not part of this model. Its `setCatalogObjectRevision` is assumed to be a plain field setter with no other effect.
- Getters are plain field reads of the class and have no members of their own. `toString` is not modelled. The raw payload is an uninterpreted sequence of integers.
- Of the `CatalogObjectEntity` referenced by revisions, only its key and its `lastCommitId` are modelled. In a revision record it is the referenced object's key.
