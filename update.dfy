/**
  `getPageChangeset`: the storage changes that create, update or delete one
  documentation page, or the error that stops them. `yaml.dump` is a parameter.
*/
module Update {
  import opened Wrappers
  import opened JsString
  import opened Util
  import opened Types
  import opened Hooks

  datatype Verb = Create | Update | Delete {
    function Name(): string {
      match this
      case Create => "Create"
      case Update => "Update"
      case Delete => "Delete"
    }
  }

  /** The errors `getPageChangeset` throws. */
  datatype PageError =
    | CouldNotFindPath
    | CouldNotConfirmPath
    | HasChildrenOnDelete
    | ParentDataMissing
    | UnknownAction
  {
    function Message(): string {
      match this
      case CouldNotFindPath => "Could not find existing doc page path"
      case CouldNotConfirmPath => "Could not confirm existing doc page path"
      case HasChildrenOnDelete => "Won\U{2019}t delete documentation page because it has children"
      case ParentDataMissing => "Cannot add child page: Unable to get parent page data"
      case UnknownAction => "Unknown action"
    }
  }

  datatype PageChange = PageChange(changeset: Changeset, verb: Verb)

  /** Some key starts with `docPath/`. */
  predicate HasChildren(keys: set<string>, docPath: string) {
    exists k :: k in keys && StartsWith(k, docPath + "/")
  }

  /** The index of the last `/` in `p`, if any. */
  function LastSlash(p: string): (r: Option<nat>)
    ensures r.Some? ==> r.value < |p| && p[r.value] == '/' && '/' !in p[r.value + 1..]
    ensures r.None? ==> '/' !in p
  {
    if p == [] then None
    else if p[|p| - 1] == '/' then Some(|p| - 1)
    else
      var r := LastSlash(p[..|p| - 1]);
      assert r.Some? ==> p[r.value + 1..] == p[..|p| - 1][r.value + 1..] + [p[|p| - 1]];
      assert r.None? ==> p == p[..|p| - 1] + [p[|p| - 1]];
      r
  }

  /** `path.dirname`: the text before the last `/`, or `.` when there is none. */
  function Dirname(p: string): (r: string)
    ensures '/' !in p ==> r == "."
    ensures '/' in p ==> StartsWith(p, r + "/") && '/' !in p[|r| + 1..]
  {
    match LastSlash(p)
    case None => "."
    case Some(i) =>
      assert p[..i + 1] == p[..i] + "/";
      p[..i]
  }

  lemma {:induction false} LastSlashOfChild(parent: string, name: string)
    requires '/' !in name
    ensures LastSlash(parent + "/" + name) == Some(|parent|)
  {
    var p := parent + "/" + name;
    if name != [] {
      var shorter := name[..|name| - 1];
      assert p[..|p| - 1] == parent + "/" + shorter;
      assert p[|p| - 1] == name[|name| - 1];
      LastSlashOfChild(parent, shorter);
    }
  }

  /** The parent of `parent/name` is `parent`, for a last segment `name` free of `/`. */
  lemma DirnameOfChild(parent: string, name: string)
    requires '/' !in name
    ensures Dirname(parent + "/" + name) == parent
  {
    LastSlashOfChild(parent, name);
    assert (parent + "/" + name)[..|parent|] == parent;
  }

  /**
    The changes that turn `oldPage` into `newPage` at logical path `docPath`.
    `asFiles` is the host's listing (keys with a leading `/`), `pageDataKeys` the
    property names of the page-data hook object, `pageData` its loaded pages.
  */
  function GetPageChangeset<S>(
    syncStatus: DocPageSyncStatus<S>,
    pageDataKeys: set<string>,
    pageData: ValueHook<map<string, SourceDocPageData>>,
    docPath: string,
    oldPage: Option<SourceDocPageData>,
    newPage: Option<SourceDocPageData>,
    dump: SourceDocPageData -> string)
    : (r: Result<PageChange, PageError>)
    ensures r.Success? ==>
              r.value.verb == (if oldPage.None? then Create else if newPage.None? then Delete else Update)
    ensures r == Failure(UnknownAction) <==> oldPage.None? && newPage.None?
  {
    if oldPage.Some? then
      var children := HasChildren(pageDataKeys, docPath);
      var c := FilepathCandidates(docPath);
      var nestedListed := "/" + c.nested in syncStatus.asFiles;
      var flatListed := "/" + c.flat in syncStatus.asFiles;
      if nestedListed == flatListed then Failure(CouldNotFindPath)
      else
        var filePath := if children && newPage.Some? then c.nested
                        else if flatListed then c.flat else c.nested;
        if "/" + filePath !in syncStatus.asFiles then Failure(CouldNotConfirmPath)
        else if newPage.None? then
          if children then Failure(HasChildrenOnDelete)
          else Success(PageChange(map[filePath := DELETE], Delete))
        else if children && !flatListed then
          Success(PageChange(
            map[c.flat := DELETE][filePath := Write(MustNotExist, dump(newPage.value))],
            Update))
        else
          Success(PageChange(map[filePath := Write(Unchecked, dump(newPage.value))], Update))
    else if newPage.Some? then
      var parent := Dirname(docPath);
      if parent !in pageData.value then Failure(ParentDataMissing)
      else
        var parentDataYaml := dump(pageData.value[parent]);
        Success(PageChange(CreateChangeset(docPath, dump(newPage.value), parent, parentDataYaml), Create))
    else
      Failure(UnknownAction)
  }

  /**
    The three writes of a create, in source order (a later entry with the same
    key replaces an earlier one): the new page flat, the parent nested, the
    parent's flat file deleted.
  */
  function CreateChangeset(docPath: string, pageYaml: string, parent: string, parentYaml: string): Changeset {
    map[FilepathCandidates(docPath).flat := Write(MustNotExist, pageYaml)]
       [FilepathCandidates(parent).nested := Write(Unchecked, parentYaml)]
       [FilepathCandidates(parent).flat := DELETE]
  }

  /** The storage path of a listed page: the flat candidate when listed, else the nested one. */
  function InUse<S>(asFiles: map<string, S>, docPath: string): string {
    if "/" + FilepathCandidates(docPath).flat in asFiles then FilepathCandidates(docPath).flat
    else FilepathCandidates(docPath).nested
  }

  /** Exactly one of the two candidates of `docPath` is listed. */
  predicate ListedOnce<S>(asFiles: map<string, S>, docPath: string) {
    ("/" + FilepathCandidates(docPath).nested in asFiles) != ("/" + FilepathCandidates(docPath).flat in asFiles)
  }

  // ---------------------------------------------------------------------------
  // Update and delete

  /** An update or delete fails with "Could not find" exactly when not exactly one candidate is listed. */
  lemma ExistingPageMustBeListedOnce<S>(
    syncStatus: DocPageSyncStatus<S>, keys: set<string>, pageData: ValueHook<map<string, SourceDocPageData>>,
    docPath: string, oldPage: SourceDocPageData, newPage: Option<SourceDocPageData>, dump: SourceDocPageData -> string)
    ensures GetPageChangeset(syncStatus, keys, pageData, docPath, Some(oldPage), newPage, dump) == Failure(CouldNotFindPath)
            <==> !ListedOnce(syncStatus.asFiles, docPath)
  {
  }

  /** The children test is a prefix test with the separator: `docs/ab` is no child of `docs/a`. */
  lemma ChildrenNeedSeparator()
    ensures !HasChildren({"docs/ab"}, "docs/a")
    ensures HasChildren({"docs/a/b"}, "docs/a")
  {
    assert StartsWith("docs/a/b", "docs/a" + "/") by { assert "docs/a/b"[..7] == "docs/a/"; }
    assert "docs/ab"[..7] != "docs/a/" by { assert "docs/ab"[6] == 'b'; }
  }

  /** A key holding no `/` is nobody's child, so hook property names never count as children. */
  lemma NoSlashNoChildren(keys: set<string>, docPath: string)
    requires forall k :: k in keys ==> '/' !in k
    ensures !HasChildren(keys, docPath)
  {
    forall k | k in keys
      ensures !StartsWith(k, docPath + "/")
    {
      if |docPath| < |k| {
        assert k[|docPath|] in k;
      }
    }
  }

  /** Deleting a page that has children always fails. */
  lemma DeleteWithChildrenFails<S>(
    syncStatus: DocPageSyncStatus<S>, keys: set<string>, pageData: ValueHook<map<string, SourceDocPageData>>,
    docPath: string, oldPage: SourceDocPageData, dump: SourceDocPageData -> string)
    requires HasChildren(keys, docPath)
    ensures var r := GetPageChangeset(syncStatus, keys, pageData, docPath, Some(oldPage), None, dump);
            r.Failure? && (ListedOnce(syncStatus.asFiles, docPath) ==> r.error == HasChildrenOnDelete)
  {
  }

  /** Deleting a childless page listed once deletes exactly its file in use, unchecked. */
  lemma DeleteRemovesFileInUse<S>(
    syncStatus: DocPageSyncStatus<S>, keys: set<string>, pageData: ValueHook<map<string, SourceDocPageData>>,
    docPath: string, oldPage: SourceDocPageData, dump: SourceDocPageData -> string)
    requires !HasChildren(keys, docPath) && ListedOnce(syncStatus.asFiles, docPath)
    ensures GetPageChangeset(syncStatus, keys, pageData, docPath, Some(oldPage), None, dump)
            == Success(PageChange(map[InUse(syncStatus.asFiles, docPath) := DELETE], Delete))
    ensures "/" + InUse(syncStatus.asFiles, docPath) in syncStatus.asFiles
  {
  }

  /** Updating a childless page listed once rewrites exactly its file in use, unchecked. */
  lemma UpdateRewritesFileInUse<S>(
    syncStatus: DocPageSyncStatus<S>, keys: set<string>, pageData: ValueHook<map<string, SourceDocPageData>>,
    docPath: string, oldPage: SourceDocPageData, newPage: SourceDocPageData, dump: SourceDocPageData -> string)
    requires !HasChildren(keys, docPath) && ListedOnce(syncStatus.asFiles, docPath)
    ensures GetPageChangeset(syncStatus, keys, pageData, docPath, Some(oldPage), Some(newPage), dump)
            == Success(PageChange(map[InUse(syncStatus.asFiles, docPath) := Write(Unchecked, dump(newPage))], Update))
  {
  }

  /** A flat page with children cannot be updated: the nested target is not listed. */
  lemma FlatPageWithChildrenRejected<S>(
    syncStatus: DocPageSyncStatus<S>, keys: set<string>, pageData: ValueHook<map<string, SourceDocPageData>>,
    docPath: string, oldPage: SourceDocPageData, newPage: SourceDocPageData, dump: SourceDocPageData -> string)
    requires HasChildren(keys, docPath)
    requires "/" + FilepathCandidates(docPath).flat in syncStatus.asFiles
    requires "/" + FilepathCandidates(docPath).nested !in syncStatus.asFiles
    ensures GetPageChangeset(syncStatus, keys, pageData, docPath, Some(oldPage), Some(newPage), dump)
            == Failure(CouldNotConfirmPath)
  {
  }

  /**
    Updating a nested page with children deletes the (unlisted) flat candidate
    and writes the nested one with "must not exist", although the nested file
    is listed.
  */
  lemma NestedPageWithChildrenUpdate<S>(
    syncStatus: DocPageSyncStatus<S>, keys: set<string>, pageData: ValueHook<map<string, SourceDocPageData>>,
    docPath: string, oldPage: SourceDocPageData, newPage: SourceDocPageData, dump: SourceDocPageData -> string)
    requires HasChildren(keys, docPath)
    requires "/" + FilepathCandidates(docPath).nested in syncStatus.asFiles
    requires "/" + FilepathCandidates(docPath).flat !in syncStatus.asFiles
    ensures var c := FilepathCandidates(docPath);
            var r := GetPageChangeset(syncStatus, keys, pageData, docPath, Some(oldPage), Some(newPage), dump);
            r.Success? && r.value.verb == Update
            && r.value.changeset.Keys == {c.flat, c.nested}
            && r.value.changeset[c.flat] == DELETE
            && r.value.changeset[c.nested] == Write(MustNotExist, dump(newPage))
  {
  }

  // ---------------------------------------------------------------------------
  // Create

  /** Creating a page whose parent has no loaded data fails. */
  lemma CreateNeedsParentData<S>(
    syncStatus: DocPageSyncStatus<S>, keys: set<string>, pageData: ValueHook<map<string, SourceDocPageData>>,
    docPath: string, newPage: SourceDocPageData, dump: SourceDocPageData -> string)
    ensures GetPageChangeset(syncStatus, keys, pageData, docPath, None, Some(newPage), dump) == Failure(ParentDataMissing)
            <==> Dirname(docPath) !in pageData.value
  {
  }

  /**
    A create touches the new page's flat candidate and both candidates of the
    parent: the parent's data is rewritten in nested form and its flat file
    deleted, whichever form it had.
  */
  lemma CreateConvertsParentToNested<S>(
    syncStatus: DocPageSyncStatus<S>, keys: set<string>, pageData: ValueHook<map<string, SourceDocPageData>>,
    docPath: string, newPage: SourceDocPageData, dump: SourceDocPageData -> string)
    requires Dirname(docPath) in pageData.value
    ensures var parent := Dirname(docPath);
            var r := GetPageChangeset(syncStatus, keys, pageData, docPath, None, Some(newPage), dump);
            r.Success? && r.value.verb == Create
            && r.value.changeset.Keys ==
                 {FilepathCandidates(docPath).flat, FilepathCandidates(parent).nested, FilepathCandidates(parent).flat}
            && r.value.changeset[FilepathCandidates(parent).nested] == Write(Unchecked, dump(pageData.value[parent]))
            && r.value.changeset[FilepathCandidates(parent).flat] == DELETE
  {
  }

  /** The flat candidate of `parent/name` is the parent's nested candidate only for `name == "index"`. */
  lemma ChildFlatIsNotParentNested(parent: string, name: string)
    requires name != "index"
    ensures FilepathCandidates(parent + "/" + name).flat != FilepathCandidates(parent).nested
  {
    var a, b := parent + "/" + name + ".yaml", parent + "/index.yaml";
    if |a| == |b| {
      assert a[|parent| + 1..|parent| + 6] == name;
      assert b[|parent| + 1..|parent| + 6] == "index";
    }
  }

  /**
    For a child path `parent/name` with `name` other than `index`, the create has
    exactly three entries, and the new page is written with "must not exist".
  */
  lemma CreateChildHasThreeEntries<S>(
    syncStatus: DocPageSyncStatus<S>, keys: set<string>, pageData: ValueHook<map<string, SourceDocPageData>>,
    parent: string, name: string, newPage: SourceDocPageData, dump: SourceDocPageData -> string)
    requires '/' !in name && name != "index"
    requires parent in pageData.value
    ensures var docPath := parent + "/" + name;
            var r := GetPageChangeset(syncStatus, keys, pageData, docPath, None, Some(newPage), dump);
            r.Success? && |r.value.changeset| == 3
            && r.value.changeset[FilepathCandidates(docPath).flat] == Write(MustNotExist, dump(newPage))
  {
    var docPath := parent + "/" + name;
    DirnameOfChild(parent, name);
    ChildFlatIsNotParentNested(parent, name);
    var mine, pn, pf := FilepathCandidates(docPath).flat, FilepathCandidates(parent).nested, FilepathCandidates(parent).flat;
    assert |mine| > |pf| && |pn| > |pf|;
    var cs := CreateChangeset(docPath, dump(newPage), parent, dump(pageData.value[parent]));
    assert cs.Keys == {mine, pn, pf};
  }

  lemma FlatOfIndexChild(parent: string)
    ensures FilepathCandidates(parent + "/index").flat == FilepathCandidates(parent).nested
  {
    assert parent + "/index" + ".yaml" == parent + "/index.yaml";
  }

  /**
    Creating a child named `index` loses the new page: its flat candidate is the
    parent's nested one, which the parent's own data overwrites.
  */
  lemma CreateChildNamedIndexIsLost<S>(
    syncStatus: DocPageSyncStatus<S>, keys: set<string>, pageData: ValueHook<map<string, SourceDocPageData>>,
    parent: string, newPage: SourceDocPageData, dump: SourceDocPageData -> string)
    requires parent in pageData.value
    ensures GetPageChangeset(syncStatus, keys, pageData, parent + "/index", None, Some(newPage), dump)
            == Success(PageChange(
                 map[FilepathCandidates(parent).nested := Write(Unchecked, dump(pageData.value[parent])),
                     FilepathCandidates(parent).flat := DELETE],
                 Create))
  {
    var docPath := parent + "/index";
    DirnameOfChild(parent, "index");
    assert parent + "/" + "index" == docPath;
    CreateUnderParent(syncStatus, keys, pageData, docPath, newPage, dump);
    IndexChildChangeset(parent, dump(newPage), dump(pageData.value[parent]));
  }

  /** The create changeset for `parent/index`: the parent's rewrite lands on the child's file. */
  lemma IndexChildChangeset(parent: string, pageYaml: string, parentYaml: string)
    ensures CreateChangeset(parent + "/index", pageYaml, parent, parentYaml)
            == map[FilepathCandidates(parent).nested := Write(Unchecked, parentYaml),
                   FilepathCandidates(parent).flat := DELETE]
  {
    FlatOfIndexChild(parent);
    var pn, pf := FilepathCandidates(parent).nested, FilepathCandidates(parent).flat;
    assert |pn| > |pf|;
    var cs := CreateChangeset(parent + "/index", pageYaml, parent, parentYaml);
    assert cs == map[pn := Write(MustNotExist, pageYaml)][pn := Write(Unchecked, parentYaml)][pf := DELETE];
  }

  lemma CreateUnderParent<S>(
    syncStatus: DocPageSyncStatus<S>, keys: set<string>, pageData: ValueHook<map<string, SourceDocPageData>>,
    docPath: string, newPage: SourceDocPageData, dump: SourceDocPageData -> string)
    requires Dirname(docPath) in pageData.value
    ensures GetPageChangeset(syncStatus, keys, pageData, docPath, None, Some(newPage), dump)
            == Success(PageChange(
                 CreateChangeset(docPath, dump(newPage), Dirname(docPath), dump(pageData.value[Dirname(docPath)])),
                 Create))
  {
  }
}
