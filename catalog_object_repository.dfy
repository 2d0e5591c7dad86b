/**
 * The two "most recent revision" queries of `CatalogObjectRepository`. Each
 * joins a revision to its catalog object and keeps the revisions whose
 * commit id is the one the object's `lastCommitId` pointer names, within one
 * bucket. Both are read-only selections over the stored rows.
 */
module CatalogObjectRepository {
  import opened Wrappers

  /** A stored revision row; `catalogObject` is the key of the object it belongs to (NULL allowed by the column). */
  datatype RevisionRow = RevisionRow(commitId: int, bucketId: int, catalogObject: Option<int>)

  /** A stored catalog object row: its pointer to the latest revision, NULL until one is set. */
  datatype CatalogObjectRow = CatalogObjectRow(lastCommitId: Option<int>)

  /**
   * The two tables the queries read. Catalog objects are keyed by the
   * identifier the second query compares with `objectId` (`catalogObject.commitId`).
   */
  datatype Store = Store(revisions: seq<RevisionRow>, catalogObjects: map<int, CatalogObjectRow>)

  /** `cor JOIN cor.catalogObject co ... AND co.lastCommitId = cor.commitId` holds for `cor`. */
  predicate IsPointedTo(s: Store, cor: RevisionRow) {
    cor.catalogObject.Some? && cor.catalogObject.value in s.catalogObjects
    && s.catalogObjects[cor.catalogObject.value].lastCommitId == Some(cor.commitId)
  }

  /** `getMostRecentRevisions`: the rows of `revs` in bucket `bucketId` that their object points to, in table order. */
  function MostRecentAmong(s: Store, bucketId: int, revs: seq<RevisionRow>): (r: seq<RevisionRow>)
    ensures forall cor :: cor in r <==> cor in revs && cor.bucketId == bucketId && IsPointedTo(s, cor)
    ensures |r| <= |revs|
  {
    if revs == [] then []
    else
      var rest := MostRecentAmong(s, bucketId, revs[1..]);
      assert revs == [revs[0]] + revs[1..];
      if revs[0].bucketId == bucketId && IsPointedTo(s, revs[0]) then [revs[0]] + rest else rest
  }

  lemma UniqueTail(revs: seq<RevisionRow>)
    requires revs != [] && UniqueCommitIds(revs)
    ensures UniqueCommitIds(revs[1..])
    ensures forall cor :: cor in revs[1..] ==> cor.commitId != revs[0].commitId
  {
    forall i, j | 0 <= i < j < |revs[1..]| ensures revs[1..][i].commitId != revs[1..][j].commitId {
      assert revs[1..][i] == revs[i + 1] && revs[1..][j] == revs[j + 1];
    }
    forall cor | cor in revs[1..] ensures cor.commitId != revs[0].commitId {
      var k :| 0 <= k < |revs[1..]| && revs[1..][k] == cor;
      assert revs[k + 1] == cor;
    }
  }

  /** Selecting rows keeps commit ids unique. */
  lemma {:induction false} MostRecentAmongUnique(s: Store, bucketId: int, revs: seq<RevisionRow>)
    requires UniqueCommitIds(revs)
    ensures UniqueCommitIds(MostRecentAmong(s, bucketId, revs))
  {
    if revs != [] {
      UniqueTail(revs);
      MostRecentAmongUnique(s, bucketId, revs[1..]);
      var rest := MostRecentAmong(s, bucketId, revs[1..]);
      if revs[0].bucketId == bucketId && IsPointedTo(s, revs[0]) {
        var r := [revs[0]] + rest;
        forall i, j | 0 <= i < j < |r| ensures r[i].commitId != r[j].commitId {
          assert r[j] == rest[j - 1] && r[j] in rest;
          if i > 0 {
            assert r[i] == rest[i - 1];
          }
        }
      }
    }
  }

  /**
   * `getMostRecentRevisions(bucketId)` (paging left aside): every returned
   * revision lies in the bucket and is the one its object's `lastCommitId`
   * names, and every such stored revision is returned.
   */
  function GetMostRecentRevisions(s: Store, bucketId: int): (r: seq<RevisionRow>)
    ensures forall cor :: cor in r ==> cor in s.revisions && cor.bucketId == bucketId && IsPointedTo(s, cor)
    ensures forall cor :: cor in s.revisions && cor.bucketId == bucketId && IsPointedTo(s, cor) ==> cor in r
  {
    MostRecentAmong(s, bucketId, s.revisions)
  }

  /** No two stored revisions share a commit id (the column is the primary key). */
  predicate UniqueCommitIds(revs: seq<RevisionRow>) {
    forall i, j :: 0 <= i < j < |revs| ==> revs[i].commitId != revs[j].commitId
  }

  /** A query declared to return one entity that matches several rows fails instead of choosing one. */
  datatype LookupError = IncorrectResultSize(actualSize: nat)

  /** The rows the second query selects, in table order. */
  function MatchingObjectRevisions(s: Store, bucketId: int, objectId: int, revs: seq<RevisionRow>): (r: seq<RevisionRow>)
    ensures forall cor :: cor in r <==> (cor in revs && cor.bucketId == bucketId
                                      && cor.catalogObject == Some(objectId) && IsPointedTo(s, cor))
    ensures forall i :: 0 <= i < |r| ==> r[i] in revs
  {
    if revs == [] then []
    else
      var rest := MatchingObjectRevisions(s, bucketId, objectId, revs[1..]);
      assert revs == [revs[0]] + revs[1..];
      if revs[0].bucketId == bucketId && revs[0].catalogObject == Some(objectId) && IsPointedTo(s, revs[0])
      then [revs[0]] + rest
      else rest
  }

  /**
   * `getMostRecentCatalogObjectRevision(bucketId, objectId)`: no row gives
   * null (None), one row gives that revision, more rows make the call fail.
   */
  function GetMostRecentCatalogObjectRevision(s: Store, bucketId: int, objectId: int)
    : (r: Result<Option<RevisionRow>, LookupError>)
    ensures r.Success? && r.value.Some? ==>
      var cor := r.value.value;
      cor in s.revisions && cor.bucketId == bucketId && cor.catalogObject == Some(objectId) && IsPointedTo(s, cor)
      && s.catalogObjects[objectId].lastCommitId == Some(cor.commitId)
    ensures r == Success(None) <==>
      forall cor :: cor in s.revisions ==>
        !(cor.bucketId == bucketId && cor.catalogObject == Some(objectId) && IsPointedTo(s, cor))
  {
    var rows := MatchingObjectRevisions(s, bucketId, objectId, s.revisions);
    if |rows| == 0 then Success(None)
    else if |rows| == 1 then Success(Some(rows[0]))
    else Failure(IncorrectResultSize(|rows|))
  }

  // ---------------------------------------------------------------------
  // Lemmas

  /** With unique commit ids, `getMostRecentRevisions` returns at most one revision per catalog object. */
  lemma AtMostOnePerObject(s: Store, bucketId: int)
    requires UniqueCommitIds(s.revisions)
    ensures forall i, j :: 0 <= i < j < |GetMostRecentRevisions(s, bucketId)| ==>
      GetMostRecentRevisions(s, bucketId)[i].catalogObject != GetMostRecentRevisions(s, bucketId)[j].catalogObject
  {
    var r := GetMostRecentRevisions(s, bucketId);
    MostRecentAmongUnique(s, bucketId, s.revisions);
    forall i, j | 0 <= i < j < |r| ensures r[i].catalogObject != r[j].catalogObject {
      assert r[i] in r && r[j] in r;
      PointedToShareCommitId(s, r[i], r[j]);
    }
  }

  /** Two revisions an object's pointer names carry that pointer's commit id. */
  lemma PointedToShareCommitId(s: Store, x: RevisionRow, y: RevisionRow)
    requires IsPointedTo(s, x) && IsPointedTo(s, y)
    ensures x.catalogObject == y.catalogObject ==> x.commitId == y.commitId
  {
  }

  lemma {:induction false} MatchingHaveOneCommitId(s: Store, bucketId: int, objectId: int, revs: seq<RevisionRow>)
    requires UniqueCommitIds(revs)
    ensures |MatchingObjectRevisions(s, bucketId, objectId, revs)| <= 1
  {
    if revs != [] {
      var rest := MatchingObjectRevisions(s, bucketId, objectId, revs[1..]);
      UniqueTail(revs);
      MatchingHaveOneCommitId(s, bucketId, objectId, revs[1..]);
      var matches := revs[0].bucketId == bucketId && revs[0].catalogObject == Some(objectId) && IsPointedTo(s, revs[0]);
      assert forall cor :: cor in rest ==> cor.commitId != revs[0].commitId;
      assert matches ==> forall cor :: cor in rest ==> cor.commitId == revs[0].commitId;
      assert rest != [] ==> rest[0] in rest;
    }
  }

  /** With unique commit ids the single-object lookup never fails. */
  lemma SingleLookupNeverFails(s: Store, bucketId: int, objectId: int)
    requires UniqueCommitIds(s.revisions)
    ensures GetMostRecentCatalogObjectRevision(s, bucketId, objectId).Success?
  {
    MatchingHaveOneCommitId(s, bucketId, objectId, s.revisions);
  }

  /** The single-object lookup fails only when two stored rows both match. */
  lemma SingleLookupFailsOnlyOnDuplicates(s: Store, bucketId: int, objectId: int)
    requires GetMostRecentCatalogObjectRevision(s, bucketId, objectId).Failure?
    ensures exists i, j :: (0 <= i < j < |s.revisions|
      && s.revisions[i].commitId == s.revisions[j].commitId
      && s.revisions[i].catalogObject == Some(objectId) && s.revisions[j].catalogObject == Some(objectId))
  {
    if UniqueCommitIds(s.revisions) {
      SingleLookupNeverFails(s, bucketId, objectId);
    } else {
      var rows := MatchingObjectRevisions(s, bucketId, objectId, s.revisions);
      assert |rows| >= 2;
      MatchingTwoRows(s, bucketId, objectId, s.revisions);
    }
  }

  lemma {:induction false} MatchingTwoRows(s: Store, bucketId: int, objectId: int, revs: seq<RevisionRow>)
    requires |MatchingObjectRevisions(s, bucketId, objectId, revs)| >= 2
    ensures exists i, j :: (0 <= i < j < |revs|
      && revs[i].commitId == revs[j].commitId
      && revs[i].catalogObject == Some(objectId) && revs[j].catalogObject == Some(objectId))
  {
    var rest := MatchingObjectRevisions(s, bucketId, objectId, revs[1..]);
    if revs[0].bucketId == bucketId && revs[0].catalogObject == Some(objectId) && IsPointedTo(s, revs[0]) {
      assert rest != [];
      var k :| 0 <= k < |revs[1..]| && revs[1..][k] == rest[0];
      assert revs[k + 1] == rest[0];
      assert revs[0].commitId == revs[k + 1].commitId;
    } else {
      MatchingTwoRows(s, bucketId, objectId, revs[1..]);
      var i, j :| 0 <= i < j < |revs[1..]|
        && revs[1..][i].commitId == revs[1..][j].commitId
        && revs[1..][i].catalogObject == Some(objectId) && revs[1..][j].catalogObject == Some(objectId);
      assert revs[i + 1] == revs[1..][i] && revs[j + 1] == revs[1..][j];
    }
  }

  /** The revision the single-object lookup finds is also among the bucket's most recent revisions. */
  lemma SingleLookupWithinBucketLookup(s: Store, bucketId: int, objectId: int)
    requires GetMostRecentCatalogObjectRevision(s, bucketId, objectId).Success?
    requires GetMostRecentCatalogObjectRevision(s, bucketId, objectId).value.Some?
    ensures GetMostRecentCatalogObjectRevision(s, bucketId, objectId).value.value in GetMostRecentRevisions(s, bucketId)
  {
  }
}
