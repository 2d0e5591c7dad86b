/**
 * The revision record `CatalogObjectRevisionEntity`: a mutable entity whose
 * constructors fill in its fields, whose setters each assign one field, whose
 * key/value tag list is appended to in place (setting each tag's back-reference
 * to the revision), and whose natural order puts the newest commit first.
 *
 * Java references that may be null are `Option` values (or nullable class
 * types); the commit date is an integer timestamp; the raw payload is an
 * uninterpreted sequence of byte values.
 */
module RevisionEntity {
  import opened Wrappers

  /** A key/value tag; only its back-reference to the owning revision changes here. */
  class KeyValueMetadataEntity {
    var key: string
    var value: string
    var catalogObjectRevision: CatalogObjectRevisionEntity?

    method SetCatalogObjectRevision(revision: CatalogObjectRevisionEntity?)
      modifies this`catalogObjectRevision
      ensures catalogObjectRevision == revision
    {
      catalogObjectRevision := revision;
    }
  }

  /** A `java.util.List` of tags: shared by reference, appended to in place. */
  class MetadataList {
    var items: seq<KeyValueMetadataEntity>

    constructor ()
      ensures items == []
    {
      items := [];
    }

    method Add(kv: KeyValueMetadataEntity)
      modifies this
      ensures items == old(items) + [kv]
    {
      items := items + [kv];
    }
  }

  /** Every field of a revision, as one value. */
  datatype RevisionFields = RevisionFields(
    commitId: Option<int>,
    kind: Option<string>,
    commitMessage: Option<string>,
    commitDate: Option<int>,
    name: Option<string>,
    bucketId: Option<int>,
    catalogObject: Option<int>,
    contentType: Option<string>,
    keyValueMetadataList: MetadataList?,
    rawObject: Option<seq<int>>)

  /** `LocalDateTime.compareTo` reduced to its sign. */
  function CompareDates(a: int, b: int): int {
    if a < b then -1 else if a > b then 1 else 0
  }

  function Sign(x: int): int {
    if x < 0 then -1 else if x > 0 then 1 else 0
  }

  class CatalogObjectRevisionEntity {
    var commitId: Option<int>
    var kind: Option<string>
    var commitMessage: Option<string>
    var commitDate: Option<int>
    var name: Option<string>
    var bucketId: Option<int>
    var catalogObject: Option<int>
    var contentType: Option<string>
    var keyValueMetadataList: MetadataList?
    var rawObject: Option<seq<int>>

    function Fields(): RevisionFields
      reads this
    {
      RevisionFields(commitId, kind, commitMessage, commitDate, name, bucketId,
                     catalogObject, contentType, keyValueMetadataList, rawObject)
    }

    /** The no-argument constructor: every field null except a fresh, empty tag list. */
    constructor ()
      ensures keyValueMetadataList != null && fresh(keyValueMetadataList) && keyValueMetadataList.items == []
      ensures Fields() == RevisionFields(None, None, None, None, None, None, None, None, keyValueMetadataList, None)
    {
      commitId, kind, commitMessage, commitDate, name := None, None, None, None, None;
      bucketId, catalogObject, contentType, rawObject := None, None, None, None;
      keyValueMetadataList := new MetadataList();
    }

    /** The seven-argument constructor: the given fields, no commit id, a fresh empty tag list. */
    constructor WithContent(kind: Option<string>, commitDate: Option<int>, name: Option<string>,
                            commitMessage: Option<string>, bucketId: Option<int>,
                            contentType: Option<string>, rawObject: Option<seq<int>>)
      ensures keyValueMetadataList != null && fresh(keyValueMetadataList) && keyValueMetadataList.items == []
      ensures Fields() == RevisionFields(None, kind, commitMessage, commitDate, name, bucketId,
                                         None, contentType, keyValueMetadataList, rawObject)
    {
      this.commitId := None;
      this.kind := kind;
      this.name := name;
      this.commitMessage := commitMessage;
      this.commitDate := commitDate;
      this.bucketId := bucketId;
      this.catalogObject := None;
      this.contentType := contentType;
      this.rawObject := rawObject;
      this.keyValueMetadataList := new MetadataList();
    }

    /** With a tag list: that very list object is stored; its tags are not touched. */
    constructor WithMetadata(kind: Option<string>, commitDate: Option<int>, name: Option<string>,
                             commitMessage: Option<string>, bucketId: Option<int>, contentType: Option<string>,
                             keyValueMetadataList: MetadataList?, rawObject: Option<seq<int>>)
      ensures Fields() == RevisionFields(None, kind, commitMessage, commitDate, name, bucketId,
                                         None, contentType, keyValueMetadataList, rawObject)
    {
      this.commitId := None;
      this.kind := kind;
      this.name := name;
      this.commitMessage := commitMessage;
      this.commitDate := commitDate;
      this.bucketId := bucketId;
      this.catalogObject := None;
      this.contentType := contentType;
      this.rawObject := rawObject;
      this.keyValueMetadataList := keyValueMetadataList;
    }

    /** With a commit id and a tag list. */
    constructor WithCommitIdAndMetadata(commitId: Option<int>, kind: Option<string>, commitDate: Option<int>,
                                        name: Option<string>, commitMessage: Option<string>, bucketId: Option<int>,
                                        contentType: Option<string>, keyValueMetadataList: MetadataList?,
                                        rawObject: Option<seq<int>>)
      ensures Fields() == RevisionFields(commitId, kind, commitMessage, commitDate, name, bucketId,
                                         None, contentType, keyValueMetadataList, rawObject)
    {
      this.commitId := commitId;
      this.kind := kind;
      this.name := name;
      this.commitMessage := commitMessage;
      this.commitDate := commitDate;
      this.bucketId := bucketId;
      this.catalogObject := None;
      this.contentType := contentType;
      this.rawObject := rawObject;
      this.keyValueMetadataList := keyValueMetadataList;
    }

    /** With a commit id and no tag list: a fresh empty one. */
    constructor WithCommitId(commitId: Option<int>, kind: Option<string>, commitDate: Option<int>,
                             name: Option<string>, commitMessage: Option<string>, bucketId: Option<int>,
                             contentType: Option<string>, rawObject: Option<seq<int>>)
      ensures keyValueMetadataList != null && fresh(keyValueMetadataList) && keyValueMetadataList.items == []
      ensures Fields() == RevisionFields(commitId, kind, commitMessage, commitDate, name, bucketId,
                                         None, contentType, keyValueMetadataList, rawObject)
    {
      this.commitId := commitId;
      this.kind := kind;
      this.name := name;
      this.commitMessage := commitMessage;
      this.commitDate := commitDate;
      this.bucketId := bucketId;
      this.catalogObject := None;
      this.contentType := contentType;
      this.rawObject := rawObject;
      this.keyValueMetadataList := new MetadataList();
    }

    /** Appends `kv` to the tag list and points `kv` back at this revision. */
    method AddKeyValue(kv: KeyValueMetadataEntity)
      requires keyValueMetadataList != null
      modifies keyValueMetadataList, kv`catalogObjectRevision
      ensures keyValueMetadataList.items == old(keyValueMetadataList.items) + [kv]
      ensures kv.catalogObjectRevision == this
      ensures Fields() == old(Fields())
    {
      keyValueMetadataList.Add(kv);
      kv.SetCatalogObjectRevision(this);
    }

    /**
     * Appends every tag of `kvs` in iteration order, pointing each back at this
     * revision. The list is only touched when there is something to add.
     */
    method AddKeyValueList(kvs: seq<KeyValueMetadataEntity>)
      requires |kvs| > 0 ==> keyValueMetadataList != null
      modifies keyValueMetadataList, set kv | kv in kvs :: kv`catalogObjectRevision
      ensures keyValueMetadataList != null ==> keyValueMetadataList.items == old(keyValueMetadataList.items) + kvs
      ensures forall kv :: kv in kvs ==> kv.catalogObjectRevision == this
      ensures Fields() == old(Fields())
    {
      for i := 0 to |kvs|
        invariant Fields() == old(Fields())
        invariant keyValueMetadataList != null ==> keyValueMetadataList.items == old(keyValueMetadataList.items) + kvs[..i]
        invariant forall j :: 0 <= j < i ==> kvs[j].catalogObjectRevision == this
      {
        assert kvs[i] in kvs;
        AddKeyValue(kvs[i]);
      }
      assert kvs[..|kvs|] == kvs;
    }

    method SetBucketId(bucketId: Option<int>)
      modifies this
      ensures Fields() == old(Fields()).(bucketId := bucketId)
    {
      this.bucketId := bucketId;
    }

    method SetCommitDate(commitDate: Option<int>)
      modifies this
      ensures Fields() == old(Fields()).(commitDate := commitDate)
    {
      this.commitDate := commitDate;
    }

    method SetKind(kind: Option<string>)
      modifies this
      ensures Fields() == old(Fields()).(kind := kind)
    {
      this.kind := kind;
    }

    method SetName(name: Option<string>)
      modifies this
      ensures Fields() == old(Fields()).(name := name)
    {
      this.name := name;
    }

    method SetCatalogObject(catalogObject: Option<int>)
      modifies this
      ensures Fields() == old(Fields()).(catalogObject := catalogObject)
    {
      this.catalogObject := catalogObject;
    }

    method SetCommitMessage(commitMessage: Option<string>)
      modifies this
      ensures Fields() == old(Fields()).(commitMessage := commitMessage)
    {
      this.commitMessage := commitMessage;
    }

    method SetContentType(contentType: Option<string>)
      modifies this
      ensures Fields() == old(Fields()).(contentType := contentType)
    {
      this.contentType := contentType;
    }

    method SetKeyValueMetadataList(keyValueMetadataList: MetadataList?)
      modifies this
      ensures Fields() == old(Fields()).(keyValueMetadataList := keyValueMetadataList)
    {
      this.keyValueMetadataList := keyValueMetadataList;
    }

    method SetRawObject(rawObject: Option<seq<int>>)
      modifies this
      ensures Fields() == old(Fields()).(rawObject := rawObject)
    {
      this.rawObject := rawObject;
    }

    /** `compareTo(o)`: `o`'s commit date compared with this one's, so the newer revision sorts first. */
    function CompareTo(o: CatalogObjectRevisionEntity): (r: int)
      reads this, o
      requires commitDate.Some? && o.commitDate.Some?
      ensures r < 0 <==> commitDate.value > o.commitDate.value
      ensures r == 0 <==> commitDate.value == o.commitDate.value
      ensures r > 0 <==> commitDate.value < o.commitDate.value
    {
      CompareDates(o.commitDate.value, commitDate.value)
    }
  }

  /** `compareTo` is antisymmetric. */
  lemma CompareToAntisymmetric(a: CatalogObjectRevisionEntity, b: CatalogObjectRevisionEntity)
    requires a.commitDate.Some? && b.commitDate.Some?
    ensures Sign(a.CompareTo(b)) == -Sign(b.CompareTo(a))
  {
  }

  /** `compareTo` is transitive, so it is a valid ordering to sort with. */
  lemma CompareToTransitive(a: CatalogObjectRevisionEntity, b: CatalogObjectRevisionEntity, c: CatalogObjectRevisionEntity)
    requires a.commitDate.Some? && b.commitDate.Some? && c.commitDate.Some?
    requires a.CompareTo(b) <= 0 && b.CompareTo(c) <= 0
    ensures a.CompareTo(c) <= 0
  {
  }

  /** In a sequence ordered by `compareTo`, commit dates never increase: newest first. */
  lemma SortedIsNewestFirst(revs: seq<CatalogObjectRevisionEntity>)
    requires forall i :: 0 <= i < |revs| ==> revs[i].commitDate.Some?
    requires forall i :: 0 <= i < |revs| - 1 ==> revs[i].CompareTo(revs[i + 1]) <= 0
    ensures forall i, j :: 0 <= i < j < |revs| ==> revs[i].commitDate.value >= revs[j].commitDate.value
  {
    forall i, j | 0 <= i < j < |revs| ensures revs[i].commitDate.value >= revs[j].commitDate.value {
      NewestFirstFrom(revs, i, j);
    }
  }

  lemma {:induction false} NewestFirstFrom(revs: seq<CatalogObjectRevisionEntity>, i: int, j: int)
    requires forall k :: 0 <= k < |revs| ==> revs[k].commitDate.Some?
    requires forall k :: 0 <= k < |revs| - 1 ==> revs[k].CompareTo(revs[k + 1]) <= 0
    requires 0 <= i <= j < |revs|
    ensures revs[i].commitDate.value >= revs[j].commitDate.value
    decreases j - i
  {
    if i < j {
      NewestFirstFrom(revs, i + 1, j);
      assert revs[i].CompareTo(revs[i + 1]) <= 0;
    }
  }
}
