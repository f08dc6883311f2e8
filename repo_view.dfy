/**
  The repository view's page handling outside the tree: which pages it loads,
  and `handleSavePage`, the busy-guarded handler that turns a create, update or
  delete into one changeset submitted to the host.
*/
module RepoView {
  import opened Wrappers
  import opened JsString
  import opened Util
  import opened Types
  import opened Hooks
  import opened Update
  import opened PageTree

  // ---------------------------------------------------------------------------
  // Which pages are loaded

  /** `path.substring(1)`: the string without its first character, and `""` stays `""`. */
  function DropFirst(s: string): (r: string)
    ensures s == [] ==> r == []
    ensures s != [] ==> [s[0]] + r == s
  {
    if s == [] then [] else s[1..]
  }

  /**
    The logical paths whose data the view asks for: the keys of the re-keyed
    sync status, each without its leading character.
  */
  function PagesToLoad(syncKeys: seq<string>): (r: seq<string>)
    ensures |r| == |syncKeys|
    ensures forall i :: 0 <= i < |syncKeys| ==> ("/" + r[i] == syncKeys[i] <==> StartsWith(syncKeys[i], "/"))
    ensures forall i :: 0 <= i < |syncKeys| ==>
              if syncKeys[i] == [] then r[i] == [] else [syncKeys[i][0]] + r[i] == syncKeys[i]
  {
    seq(|syncKeys|, i requires 0 <= i < |syncKeys| => DropFirst(syncKeys[i]))
  }

  /** A path free of `.yaml` keeps that property behind a leading `/`. */
  lemma SlashPrefixKeepsNoYaml(p: string)
    requires !Contains(p, FLAT_SUFFIX)
    ensures !Contains("/" + p, FLAT_SUFFIX)
  {
    forall j: nat | j <= |"/" + p|
      ensures !OccursAt("/" + p, FLAT_SUFFIX, j)
    {
      if j == 0 && 5 <= |"/" + p| {
        assert ("/" + p)[..5][0] == '/' != FLAT_SUFFIX[0];
      } else if OccursAt("/" + p, FLAT_SUFFIX, j) {
        assert ("/" + p)[j..j + 5] == p[j - 1..j - 1 + 5];
        assert OccursAt(p, FLAT_SUFFIX, j - 1);
      }
    }
  }

  /**
    A page listed by the host in nested form, `/<p>/index.yaml`, is indexed
    under `/<p>`, loaded as `p`, and both of its candidates are requested.
  */
  lemma ListedNestedPageIsRequested(p: string)
    requires !Contains(p, FLAT_SUFFIX)
    ensures FilepathToDocsPath("/" + FilepathCandidates(p).nested) == "/" + p
    ensures PagesToLoad(["/" + p]) == [p]
    ensures FilepathCandidates(p).nested in RequestFor([p]) && FilepathCandidates(p).flat in RequestFor([p])
  {
    SlashPrefixKeepsNoYaml(p);
    assert "/" + FilepathCandidates(p).nested == FilepathCandidates("/" + p).nested;
    NestedRoundTrip("/" + p);
  }

  /**
    A page listed by the host in flat form, `/<p>.yaml`, is indexed under
    `/<p>` and loaded as `p`, unless `p` ends in `/index`.
  */
  lemma ListedFlatPageIsRequested(p: string)
    requires !Contains(p, FLAT_SUFFIX) && !EndsWith(p, "/index") && p != "index"
    ensures FilepathToDocsPath("/" + FilepathCandidates(p).flat) == "/" + p
    ensures PagesToLoad(["/" + p]) == [p]
    ensures FilepathCandidates(p).nested in RequestFor([p]) && FilepathCandidates(p).flat in RequestFor([p])
  {
    SlashPrefixKeepsNoYaml(p);
    assert "/" + FilepathCandidates(p).flat == FilepathCandidates("/" + p).flat;
    assert !EndsWith("/" + p, "/index") by {
      if |p| == 5 {
        assert ("/" + p)[|"/" + p| - 6..] == "/" + p;
        assert ("/" + p)[1..] == p;
      } else if |p| >= 6 {
        assert ("/" + p)[|"/" + p| - 6..] == p[|p| - 6..];
      }
    }
    FlatRoundTrip("/" + p);
  }

  // ---------------------------------------------------------------------------
  // Saving a page

  /** Why a save did not go through. */
  datatype SaveError = PageFailure(error: PageError) | HostRejected

  /** What a call of `handleSavePage` came to. */
  datatype SaveOutcome =
    | Ignored              // another save was in progress
    | Saved                // the changeset was submitted and accepted
    | Skipped              // neither page given: logged, nothing thrown
    | Failed(cause: SaveError)

  /** The commit message of a change: its verb, a space, the logical path. */
  function CommitMessage(verb: Verb, docPath: string): (r: string)
    ensures StartsWith(r, verb.Name() + " ") && r[|verb.Name()| + 1..] == docPath
  {
    verb.Name() + " " + docPath
  }

  /** The view's save state: the busy flag and the changesets submitted so far. */
  class RepoView {
    var isBusy: bool
    var submitted: seq<Commit>

    constructor ()
      ensures !isBusy && submitted == []
    {
      isBusy := false;
      submitted := [];
    }

    /**
      `handleSavePage`: ignored while busy; otherwise busy while the changeset
      is derived and submitted, and not busy afterwards whatever happened. The
      host's answer is the parameter `hostAccepts`.
    */
    method HandleSavePage<S>(
      syncStatus: DocPageSyncStatus<S>, pageData: ValueHook<map<string, SourceDocPageData>>,
      docPath: string, oldPage: Option<SourceDocPageData>, newPage: Option<SourceDocPageData>,
      dump: SourceDocPageData -> string, hostAccepts: bool)
      returns (r: SaveOutcome)
      modifies this
      ensures old(isBusy) ==> r == Ignored && isBusy && submitted == old(submitted)
      ensures !old(isBusy) ==> !isBusy
      ensures !old(isBusy) ==>
                var pc := GetPageChangeset(syncStatus, HOOK_FIELD_NAMES, pageData, docPath, oldPage, newPage, dump);
                if pc.Success? then
                  submitted == old(submitted) + [Commit(pc.value.changeset, CommitMessage(pc.value.verb, docPath))]
                  && r == (if hostAccepts then Saved else Failed(HostRejected))
                else
                  submitted == old(submitted)
                  && r == (if pc.error == UnknownAction then Skipped else Failed(PageFailure(pc.error)))
    {
      if isBusy {
        return Ignored;
      }
      isBusy := true;
      var pc := GetPageChangeset(syncStatus, HOOK_FIELD_NAMES, pageData, docPath, oldPage, newPage, dump);
      if pc.Success? {
        submitted := submitted + [Commit(pc.value.changeset, CommitMessage(pc.value.verb, docPath))];
        r := if hostAccepts then Saved else Failed(HostRejected);
      } else if pc.error == UnknownAction {
        r := Skipped;
      } else {
        r := Failed(PageFailure(pc.error));
      }
      isBusy := false;
    }

    /**
      The add button of a page: create the child at the page's add path with
      title "New page" and no media or redirects.
    */
    method AddChildPage<S>(
      syncStatus: DocPageSyncStatus<S>, pageData: ValueHook<map<string, SourceDocPageData>>,
      docPath: string, childIds: seq<string>, dump: SourceDocPageData -> string, hostAccepts: bool)
      returns (r: SaveOutcome)
      modifies this
      ensures isBusy == old(isBusy)
      ensures old(isBusy) ==> r == Ignored && submitted == old(submitted)
      ensures !old(isBusy) && docPath !in pageData.value ==>
                r == Failed(PageFailure(ParentDataMissing)) && submitted == old(submitted)
      ensures !old(isBusy) && docPath in pageData.value ==>
                var childPath := docPath + "/" + NewId(childIds);
                r == (if hostAccepts then Saved else Failed(HostRejected))
                && submitted == old(submitted) + [Commit(
                     CreateChangeset(childPath, dump(NewPageRecord("New page")), docPath, dump(pageData.value[docPath])),
                     CommitMessage(Create, childPath))]
    {
      var childPath := MakePageActions(docPath, childIds).addChildPath;
      AddChildChangeset(syncStatus, pageData, docPath, childIds, dump);
      ghost var pc := GetPageChangeset(syncStatus, HOOK_FIELD_NAMES, pageData, childPath, None,
                                       Some(NewPageRecord("New page")), dump);
      r := HandleSavePage(syncStatus, pageData, childPath, None, Some(NewPageRecord("New page")), dump, hostAccepts);
    }

    /**
      The delete button of a page: delete it with its loaded record as the old
      page; with no record loaded the call has neither page and only logs.
    */
    method DeletePage<S>(
      syncStatus: DocPageSyncStatus<S>, pageData: ValueHook<map<string, SourceDocPageData>>,
      docPath: string, dump: SourceDocPageData -> string, hostAccepts: bool)
      returns (r: SaveOutcome)
      modifies this
      ensures isBusy == old(isBusy)
      ensures old(isBusy) ==> r == Ignored && submitted == old(submitted)
      ensures !old(isBusy) && docPath !in pageData.value ==> r == Skipped && submitted == old(submitted)
      ensures !old(isBusy) && docPath in pageData.value && !ListedOnce(syncStatus.asFiles, docPath) ==>
                r == Failed(PageFailure(CouldNotFindPath)) && submitted == old(submitted)
      ensures !old(isBusy) && docPath in pageData.value && ListedOnce(syncStatus.asFiles, docPath) ==>
                r == (if hostAccepts then Saved else Failed(HostRejected))
                && submitted == old(submitted) + [Commit(map[InUse(syncStatus.asFiles, docPath) := DELETE], CommitMessage(Delete, docPath))]
    {
      var oldPage := if docPath in pageData.value then Some(pageData.value[docPath]) else None;
      NoSlashNoChildren(HOOK_FIELD_NAMES, docPath);
      if oldPage.Some? {
        ExistingPageMustBeListedOnce(syncStatus, HOOK_FIELD_NAMES, pageData, docPath, oldPage.value, None, dump);
        if ListedOnce(syncStatus.asFiles, docPath) {
          DeleteRemovesFileInUse(syncStatus, HOOK_FIELD_NAMES, pageData, docPath, oldPage.value, dump);
        }
      }
      r := HandleSavePage(syncStatus, pageData, docPath, oldPage, None, dump, hostAccepts);
    }
  }

  /**
    The add button's save: a create at the page's add path, which succeeds
    exactly when the page's own data is loaded, the page then being the parent.
  */
  lemma AddChildChangeset<S>(
    syncStatus: DocPageSyncStatus<S>, pageData: ValueHook<map<string, SourceDocPageData>>,
    docPath: string, childIds: seq<string>, dump: SourceDocPageData -> string)
    ensures var childPath := docPath + "/" + NewId(childIds);
            var pc := GetPageChangeset(syncStatus, HOOK_FIELD_NAMES, pageData, childPath, None,
                                       Some(NewPageRecord("New page")), dump);
            && MakePageActions(docPath, childIds).addChildPath == childPath
            && (docPath !in pageData.value ==> pc == Failure(ParentDataMissing))
            && (docPath in pageData.value ==>
                  pc == Success(PageChange(CreateChangeset(childPath, dump(NewPageRecord("New page")),
                                                           docPath, dump(pageData.value[docPath])), Create)))
  {
    DirnameOfChild(docPath, NewId(childIds));
  }

  /**
    The page-data hook object's own keys hold no `/`, so the view never finds
    children: deleting any page listed once submits its deletion.
  */
  lemma ViewNeverSeesChildren(docPath: string)
    ensures !HasChildren(HOOK_FIELD_NAMES, docPath)
  {
    NoSlashNoChildren(HOOK_FIELD_NAMES, docPath);
  }
}
