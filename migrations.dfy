/**
  The dataset's initial migration: it creates the top-level page, `docs`, in
  nested form, and brings the dataset to version `1.0.0-alpha33`.
*/
module Migrations {
  import opened Wrappers
  import opened JsString
  import opened Util
  import opened Types
  import opened Hooks
  import opened Update
  import opened RepoView

  /** The top-level page a new dataset starts with. */
  const FIRST_PAGE_STUB: SourceDocPageData := NewPageRecord("Home")

  /** The logical path of the top-level page, which is also the id of the page tree's root. */
  const ROOT_DOC_PATH: string := "docs"

  /** What a migration returns: the version reached and the buffers to write. */
  datatype MigrationResult = MigrationResult(versionAfter: string, bufferChangeset: Changeset)

  /**
    `initializeDataset`: one write, creating the top-level page at
    `/docs/index.yaml` only if nothing is stored there. `serialize` stands for
    the serializer's output for the page record at the buffer root.
  */
  function InitializeDataset(serialize: SourceDocPageData -> string): (r: MigrationResult)
    ensures r.versionAfter == "1.0.0-alpha33"
    ensures r.bufferChangeset.Keys == {"/" + FilepathCandidates(ROOT_DOC_PATH).nested}
    ensures r.bufferChangeset["/" + FilepathCandidates(ROOT_DOC_PATH).nested]
              == Write(MustNotExist, serialize(FIRST_PAGE_STUB))
  {
    assert "/" + FilepathCandidates(ROOT_DOC_PATH).nested == "/docs/index.yaml";
    MigrationResult("1.0.0-alpha33", map["/docs/index.yaml" := Write(MustNotExist, serialize(FIRST_PAGE_STUB))])
  }

  /**
    The migrated dataset lists exactly the nested file of `docs`: the listing
    indexes it as the page `/docs`, loaded as `docs` (the tree's root id), whose
    stub is titled "Home" with no media and no redirects, and a later save of
    that page finds it and uses its nested file.
  */
  lemma MigratedRootIsThePageDocs<S>(serialize: SourceDocPageData -> string, status: S)
    ensures var written := InitializeDataset(serialize).bufferChangeset;
            && FIRST_PAGE_STUB.title == "Home" && FIRST_PAGE_STUB.media == [] && FIRST_PAGE_STUB.redirectFrom == []
            && written.Keys == {"/docs/index.yaml"}
            && ListedOnce(map["/docs/index.yaml" := status], ROOT_DOC_PATH)
            && InUse(map["/docs/index.yaml" := status], ROOT_DOC_PATH) == FilepathCandidates(ROOT_DOC_PATH).nested
            && SyncEntry("/docs/index.yaml", status) == Some(("/docs", status))
            && PagesToLoad(["/docs"]) == [ROOT_DOC_PATH]
  {
    RootListedOnce(status);
    RootIndexed(status);
  }

  /** The nested file of `docs` alone lists the page once, in nested form. */
  lemma RootListedOnce<S>(status: S)
    ensures ListedOnce(map["/docs/index.yaml" := status], ROOT_DOC_PATH)
    ensures InUse(map["/docs/index.yaml" := status], ROOT_DOC_PATH) == FilepathCandidates(ROOT_DOC_PATH).nested
  {
    assert "/" + FilepathCandidates(ROOT_DOC_PATH).nested == "/docs/index.yaml";
    assert "/" + FilepathCandidates(ROOT_DOC_PATH).flat == "/docs.yaml";
  }

  /** The listing indexes the nested file of `docs` under `/docs`. */
  lemma RootIndexed<S>(status: S)
    ensures SyncEntry("/docs/index.yaml", status) == Some(("/docs", status))
  {
    assert FilepathCandidates("/docs").nested == "/docs/index.yaml";
    RootPathFreeOfYaml();
    NestedRoundTrip("/docs");
    CandidatesAreDocumentationPages("/docs");
  }

  /** `/docs` holds no `.yaml`. */
  lemma RootPathFreeOfYaml()
    ensures !Contains("/docs", FLAT_SUFFIX)
  {
    forall j: nat | j <= |"/docs"|
      ensures !OccursAt("/docs", FLAT_SUFFIX, j)
    {
      if j == 0 {
        assert "/docs"[0] != FLAT_SUFFIX[0];
      }
    }
  }
}
