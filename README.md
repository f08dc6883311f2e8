# Documentation-site extension: page storage, page tree and saves

This project models the logic of a documentation-site extension for the Paneron
dataset host. The extension stores each page of a documentation site as a
YAML record. A page with logical path `p` (such as `docs/guide`) is stored in
one of two places:

- nested, at `p/index.yaml`;
- flat, at `p.yaml`.

The extension always asks the host for both candidates. It maps a storage
path back to a logical path by deleting the first `/index.yaml` and then the
first `.yaml`.

The model covers these parts:

- the path convention (`Util`);
- the JavaScript string built-ins it relies on (`JsString`);
- the page record and its rich-text test (`Types`);
- the two page hooks (`Hooks`):
  - the host's file listing, re-keyed by logical path;
  - the request for both candidates of every page, and the parsed UTF-8 answers;
- the derivation of a changeset for a create, update or delete (`Update`);
- the page tree (`PageTree`):
  - pages sorted by path, one node each, attached under their parent by an in-place search;
  - the delete and add-child actions of each node;
- the repository view's save handler with its busy flag, and its add and delete buttons (`RepoView`);
- the initial dataset migration (`Migrations`);
- the site-settings panel's writes (`SiteSettings`);
- the editor's `urn` link scheme and menu-button props (`Editor`).

Imperative code is modelled as classes with mutable fields:

- tree nodes whose child lists and actions are updated in place;
- the view and the settings panel, with their busy flags and submitted changesets.

Pure code is modelled as functions and lemmas. Things outside the extension
are parameters:

- YAML dumping and loading;
- the host's hooks;
- the host's answer to a submitted changeset;
- the deployment setups;
- the default banner SVGs.

The host's `changeObjects` is modelled by appending a `Commit` to the
submitting object's `submitted` list.

## Model

| member | source | states |
|---|---|---|
| Util.FilepathCandidates | src/util.ts:4-9 | The nested candidate is `p + "/index.yaml"` and the flat one is `p + ".yaml"`, nested first. They always differ. |
| Util.NestedRoundTrip | src/util.ts:4-13 | For a path with no `.yaml`, the nested candidate maps back to the path under first-occurrence replacement. |
| Util.FlatRoundTrip | src/util.ts:4-13 | For a path with no `.yaml` that does not end in `/index`, the flat candidate maps back to the path. |
| Util.FlatIndexMapsToParent | src/util.ts:4-13 | The flat candidate of `x/index` is the nested candidate of `x`, so it maps back to `x` and not to `x/index`: the round trip fails. |
| Util.NestedSuffixInFlatCandidate | src/util.ts:7-12 | `/index.yaml` occurs in `p.yaml` only if `p` already holds `.yaml` or ends in `/index`. |
| Util.CandidatesAreDocumentationPages | src/util.ts:4-21 | Both candidates of any page are indexed as pages. The one exception is the flat candidate of `/meta`, which is `/meta.yaml`. |
| Util.FilepathToDocsPath | src/util.ts:11-13 | The logical path is never longer than the storage path, and a path that holds no `.yaml` stands for itself. |
| Util.NoYamlNoNested | src/util.ts:12 | A path without `.yaml` holds no `/index.yaml`, so neither replacement changes it. |
| Util.IsDocumentationPage | src/util.ts:15-21 | Every YAML file other than `/meta.yaml` is indexed as a page. |
| Util.YamlIsNotMedia | src/util.ts:17-20 | A YAML file name never carries one of the excluded suffixes `.DS_Store`, `.svg` or `.mp4`. |
| Util.MediaAreNotPages | src/util.ts:15-21 | No SVG, MP4 or `.DS_Store` file, and not `/meta.yaml`, is indexed as a page. Every PNG file is indexed as a page. |
| Util.LastCharRulesOut | src/util.ts:18-20 | A path does not end with a suffix whose last character differs from its own. |
| Util.NestedSuffixHoldsFlatSuffix | src/util.ts:12 | Every occurrence of `/index.yaml` contains an occurrence of `.yaml`. |
| JsString.IndexOf | src/util.ts:12 | Gives the first occurrence of a pattern: the pattern occurs there and nowhere before. |
| JsString.Replace | src/util.ts:12 | `replace` with a string pattern leaves a string without the pattern unchanged. Otherwise the length changes by exactly one pattern's worth, since one occurrence is replaced. |
| JsString.ReplaceFirstAt | src/util.ts:12 | `replace` with a string pattern rewrites only the first occurrence and keeps the rest. |
| JsString.Split | src/RepoView.tsx:153-158 | `split('/')` gives at least one part, and no part holds `/`. |
| JsString.SplitSingleSegment | src/RepoView.tsx:123 | `split('/')` gives one part exactly when the path holds no `/`. |
| JsString.SplitInjective | src/RepoView.tsx:153-158 | Two paths with the same parts are the same path, so comparing the serialised parts compares the paths. |
| JsString.JoinSplit | src/RepoView.tsx:153-158 | Joining the parts of `split('/')` with `/` gives back the string, so the parts determine the path. |
| JsString.SplitAppend | src/RepoView.tsx:153-158 | The parts of `a/b` are the parts of `a` followed by those of `b`. |
| JsString.LexLeTotal | src/RepoView.tsx:131 | Code-point order of paths is total. |
| JsString.LexLeTransitive | src/RepoView.tsx:131 | Code-point order of paths is transitive. |
| JsString.LexLeAntisymmetric | src/RepoView.tsx:131 | Code-point order of paths is antisymmetric. |
| JsString.PrefixSortsFirst | src/RepoView.tsx:131 | A path sorts before every path it is a prefix of, so `docs` sorts before `docs/…`. |
| JsString.ToLower | src/prosemirror/editor.tsx:259 | `toLowerCase` keeps the length and lowers each ASCII letter. |
| JsString.TrimStart | src/prosemirror/editor.tsx:259 | The result is the input with its leading white space removed. It is a suffix of the input, every removed character is white space, and it does not start with white space. |
| JsString.TrimEnd | src/prosemirror/editor.tsx:259 | The result is the input with its trailing white space removed. It is a prefix of the input, every removed character is white space, and it does not end with white space. |
| JsString.NumberToString | src/RepoView.tsx:95 | Interpolating a count gives its decimal form: a non-empty run of digits whose value is the count, with no leading zero. |
| Types.NewPageRecord | src/types.ts:1-10 | A record built from a title has empty `media` and `redirectFrom` and no optional fields. |
| Types.IsProseMirrorStructure | src/types.ts:16-18 | True exactly for an object with its own `doc` whose `type` is not `undefined`. A string gives false. A `null` or `undefined` `doc` throws. |
| Hooks.UseDocPageSyncStatus | src/hooks.ts:22-40 | `asFiles` is the host's listing as an object, and the loading state and errors are passed through. |
| Hooks.SyncStatusIndexesPages | src/hooks.ts:28-33 | A logical path is indexed exactly when a listed documentation page maps to it. It carries the status of the last such file. |
| Hooks.SyncStatusBothFormsLastWins | src/hooks.ts:28-33 | A page listed in both forms is indexed once, with the status of the file listed last. |
| Hooks.SyncEntryOfCandidates | src/hooks.ts:29-31 | Both candidates of a round-tripping page are kept, each under the page's path. |
| Hooks.CollectLastWins | src/hooks.ts:28-33 | `reduce` with spreads keeps a key exactly when some entry produces it, with the value of the last entry that does. |
| Hooks.ObjectOfKeys | src/hooks.ts:28 | An object has exactly the keys its entries list. |
| Hooks.ObjectOfEntries | src/hooks.ts:28 | With distinct keys, each entry's value is the object's value for that key. |
| Hooks.RequestFor | src/hooks.ts:44-52 | The request names both candidates of every path, and every entry is UTF-8. |
| Hooks.CandidateRequest | src/hooks.ts:46-51 | The loop over one path's candidates builds exactly the request for that path. |
| Hooks.DataRequest | src/hooks.ts:44-52 | Merging the per-path requests gives the request for all paths. |
| Hooks.RequestedFilesSnoc | src/hooks.ts:44-52 | One more path adds exactly its two candidates. |
| Hooks.RequestIsRequestFor | src/hooks.ts:44-52 | Any UTF-8 request for exactly the candidates of the paths is the request for those paths. |
| Hooks.ParseDocPageData | src/hooks.ts:56-67 | The answer's loading state and errors are kept, and only its value is replaced. |
| Hooks.ParsedPagesAreTextAnswers | src/hooks.ts:57-63 | A page is loaded exactly when a present text answer maps to it. Its record is the parse of such an answer, and no later answer maps to the page, so the last one wins. |
| Hooks.UseDocPageData | src/hooks.ts:43-68 | Parses exactly the host's answer to the request for both candidates of every path. |
| Hooks.PageLoadedFromEitherForm | src/hooks.ts:44-62 | A page stored in either one form is loaded under its own path, and nothing else is loaded. |
| Update.GetPageChangeset | src/update.ts:15-145 | The verb is Create, Delete or Update according to which pages are given. "Unknown action" is raised exactly when neither page is given. |
| Update.ExistingPageMustBeListedOnce | src/update.ts:33-39 | An update or delete fails with "could not find" exactly when not exactly one candidate is listed. |
| Update.ChildrenNeedSeparator | src/update.ts:27 | The children test is a prefix test with `/`: `docs/ab` is not a child of `docs/a`, and `docs/a/b` is. |
| Update.NoSlashNoChildren | src/update.ts:27 | Over keys with no `/`, such as a hook object's property names, no page has children. |
| Update.DeleteWithChildrenFails | src/update.ts:62-66 | Deleting a page with children always fails, with the children error once the page is listed once. |
| Update.DeleteRemovesFileInUse | src/update.ts:48-74 | Deleting a childless page listed once gives one unchecked deletion of its file in use, with verb Delete. The file in use is the flat one if listed, else the nested one. |
| Update.UpdateRewritesFileInUse | src/update.ts:96-103 | Updating a childless page listed once gives one unchecked write of the dumped page at its file in use. |
| Update.FlatPageWithChildrenRejected | src/update.ts:48-60 | A flat page with children targets its unlisted nested file and fails with "could not confirm". |
| Update.NestedPageWithChildrenUpdate | src/update.ts:77-94 | A nested page with children gives exactly two entries. The flat candidate is deleted. The nested one is written with "must not exist". |
| Update.CreateNeedsParentData | src/update.ts:110-116 | A create fails exactly when the parent directory's data is not loaded. |
| Update.CreateConvertsParentToNested | src/update.ts:110-139 | A create writes the new page's flat file. It rewrites the parent's data nested and deletes the parent's flat file, whatever the parent's form. |
| Update.CreateUnderParent | src/update.ts:107-139 | With the parent loaded, a create gives exactly the three-entry create changeset. |
| Update.CreateChildHasThreeEntries | src/update.ts:123-139 | A create at `parent/name` (name not `index`) has three entries. The new page is written flat with "must not exist". |
| Update.ChildFlatIsNotParentNested | src/update.ts:124-129 | A child's flat file differs from its parent's nested file unless the child is named `index`. |
| Update.FlatOfIndexChild | src/update.ts:124-129 | The flat file of `parent/index` is the parent's nested file. |
| Update.CreateChildNamedIndexIsLost | src/update.ts:123-139 | Creating `parent/index` loses the new page: its file is the parent's nested file, which the parent's rewrite replaces. |
| Update.IndexChildChangeset | src/update.ts:123-139 | The create changeset for `parent/index` holds only the parent's rewrite and its flat deletion. |
| Update.DirnameOfChild | src/update.ts:110 | `dirname` of `parent/name` is `parent`. |
| Update.Dirname | src/update.ts:110 | `dirname` is the text before the last `/`, or `.` when there is none. |
| Update.LastSlash | src/update.ts:110 | The last `/` of a path is found, or none exists. |
| PageTree.NewId | src/RepoView.tsx:93-95 | The new id is `new-page` exactly when that literal id is not among the given ids. Otherwise it is `new-page-N`, where N is the decimal number of ids that start with `new-page`. It never holds a `/`. |
| PageTree.CountStartingWith | src/RepoView.tsx:95 | The count is the number of ids that start with the prefix. So it is at most the number of ids, and zero exactly when no id starts with the prefix. |
| PageTree.NewIdIgnoresFullPaths | src/RepoView.tsx:93-126 | The tree passes full paths as ids, so every child added to a page gets the path `<page>/new-page`. |
| PageTree.NewIdCanCollide | src/RepoView.tsx:94-96 | With `new-page` and `new-page-2` taken, the new id is `new-page-2` again. |
| PageTree.MakePageActions | src/RepoView.tsx:121-128 | Delete is offered exactly for a childless page whose path holds a `/`. The add action always targets a direct child path. |
| PageTree.ChildPathIsChild | src/RepoView.tsx:103 | The segments of the add path `parent/name` minus the last are the parent's segments. |
| PageTree.Insert | src/RepoView.tsx:130-131 | Inserting into a sorted list keeps it sorted and adds exactly the new entry. |
| PageTree.SortByPath | src/RepoView.tsx:130-131 | The pages are sorted by path, as a permutation. |
| PageTree.TreeNode.constructor | src/RepoView.tsx:134-141 | A new node has the given id, label, selection and actions, and no children. |
| PageTree.MakeNode | src/RepoView.tsx:132-141 | A page's node has its logical path as id and its title as label. It is selected exactly when its path is the selected one. It is childless with the actions of a childless page. |
| PageTree.MakeNodes | src/RepoView.tsx:130-142 | One fresh node per page, in sorted order. |
| PageTree.Adopt | src/RepoView.tsx:159-161 | The child is appended, the parent's actions are recomputed from its new child list, and no other node changes. |
| PageTree.AttachToParent | src/RepoView.tsx:155-166 | Each node's child list gains one copy of the node per time the depth-first search matches it. Matching nodes are not searched further. The tree stays well formed, and every node's actions match its children. |
| PageTree.AttachNext | src/RepoView.tsx:156-165 | One loop step extends the search's effect from the first `i` candidates to the first `i + 1`. |
| PageTree.AttachCandidate | src/RepoView.tsx:157-164 | A matching candidate adopts the node. Any other candidate has its children searched. |
| PageTree.SearchChildren | src/RepoView.tsx:163 | A non-matching candidate's effect is the search of its children one level down. |
| PageTree.AttachedCompose | src/RepoView.tsx:156-165 | Searching the first `i` candidates and then candidate `i` is searching the first `i + 1`. |
| PageTree.AttachedMatch | src/RepoView.tsx:158-161 | A matching candidate gets the node appended once. |
| PageTree.AttachedDescend | src/RepoView.tsx:162-164 | A non-matching candidate's effect is that of searching its children. |
| PageTree.AttachedNothing | src/RepoView.tsx:156 | Searching no candidates changes nothing. |
| PageTree.VisitsOnlyMatches | src/RepoView.tsx:158 | The search matches only nodes whose segments are the node's segments minus the last. |
| PageTree.VisitsFrame | src/RepoView.tsx:156-165 | The search reads only the child lists of non-matching nodes, so appending to matching nodes does not change it. |
| PageTree.NoDeleteWithChildren | src/RepoView.tsx:123-161 | Once actions match children, a node with children never offers delete. |
| PageTree.ChildrenOneLevelDown | src/RepoView.tsx:163 | In a well-formed tree every child is a known node exactly one segment deeper. |
| PageTree.WellFormedAppend | src/RepoView.tsx:160 | Appending a direct sub-path node keeps the tree well formed. |
| PageTree.AttachedReachedParent | src/RepoView.tsx:155-166 | After the search, a node whose segments are the parent segments of the new node, and which the search reaches, holds the new node among its children. A node with other segments keeps its child list. |
| PageTree.ReachedIsVisited | src/RepoView.tsx:155-166 | A matching node that the search reaches through non-matching nodes is matched at least once. |
| PageTree.ReduceStepPlacement | src/RepoView.tsx:145-166 | One step of the reduce. A node with the current tree's id replaces the tree and changes no child list. Any other node leaves the tree in place. It is appended to every reachable node holding its parent's segments, and no other node's child list changes. |
| PageTree.ReduceNext | src/RepoView.tsx:145-167 | The reduce's callback performs exactly one such step, returns a `docs` node, and keeps the nodes well formed with actions matching children. |
| PageTree.ReduceNodes | src/RepoView.tsx:145-170 | The loop over the nodes is a chain of such steps, with one snapshot of all child lists per step. |
| PageTree.ReduceStepsKeys | src/RepoView.tsx:145-170 | The reduce neither adds nor removes nodes, and the current tree always has the id `docs`. |
| PageTree.NodeTree | src/RepoView.tsx:145-170 | The reduce starts from the childless `docs` root and returns a `docs` node. Its child lists go from the initial snapshot to the final one through one step per node, each step as stated for `ReduceStepPlacement`. The nodes stay well formed, with actions matching children. |
| PageTree.RootedTree | src/RepoView.tsx:145-170 | The reduce over the page nodes starts from a new bare `docs` root captioned "Docs". Its node set is the page nodes plus that root, every child list is empty at the start, and each step is as stated for `ReduceStepPlacement`. |
| PageTree.TreeOfPages | src/RepoView.tsx:130-170 | One fresh node per loaded page in path order, and the tree built from them by the reduce over a fresh root captioned "Docs". The node set is exactly the page nodes and the root, and all child lists start empty. A page node with id `docs` replaces the current tree exactly at its step; every other node is attached as `ReduceStepPlacement` states. Every node's actions match its children. |
| PageTree.NodeIdIsLogicalPath | src/RepoView.tsx:133 | Re-applying the suffix removal to a key that holds no `.yaml` leaves it unchanged. |
| RepoView.PagesToLoad | src/RepoView.tsx:90 | One path per indexed key. Each is the key without its first character: that character followed by the path gives back any non-empty key, and an empty key gives an empty path. `"/" + r[i]` gives back the key exactly when the key starts with `/`. |
| RepoView.DropFirst | src/RepoView.tsx:90 | `substring(1)` drops the first character, and `""` stays `""`. |
| RepoView.ListedNestedPageIsRequested | src/RepoView.tsx:90 | A page listed as `/<p>/index.yaml` is indexed as `/<p>` and loaded as `p`, and both of its candidates are requested. |
| RepoView.ListedFlatPageIsRequested | src/RepoView.tsx:90 | The same for a page listed as `/<p>.yaml`, for `p` not ending in `index`. |
| RepoView.SlashPrefixKeepsNoYaml | src/hooks.ts:31 | A leading `/` does not create a `.yaml`. |
| RepoView.CommitMessage | src/RepoView.tsx:244 | The commit message is the verb, a space, then the logical path. |
| RepoView.RepoView.constructor | src/RepoView.tsx:85 | The view starts not busy, with nothing submitted. |
| RepoView.RepoView.HandleSavePage | src/RepoView.tsx:173-322 | A call while busy changes nothing. Otherwise the call ends not busy, whatever happened. The derived changeset is submitted with its message, and any error is reported without submitting. "Unknown action" is only skipped. |
| RepoView.RepoView.AddChildPage | src/RepoView.tsx:93-107 | While busy, nothing happens. Otherwise it requests a create at the page's add path with a "New page" record. This submits the three-entry create under the page, or fails when the page's data is not loaded. The busy flag ends as it started. |
| RepoView.RepoView.DeletePage | src/RepoView.tsx:111-119 | While busy, nothing happens. Otherwise it deletes with the loaded record as the old page. With none loaded the call is skipped. Listed once, it submits the deletion of the file in use. Not listed once, it fails with "could not find" and submits nothing. The busy flag ends as it started. |
| RepoView.AddChildChangeset | src/RepoView.tsx:103-107 | The add path is `<page>/<new id>`. Its create has the page as parent, and it fails exactly when the page's data is not loaded. |
| RepoView.ViewNeverSeesChildren | src/update.ts:27 | Over the hook object's own keys no page has children, so the view can delete any page listed once. |
| Migrations.InitializeDataset | src/migrations/initial.ts:17-28 | Gives version `1.0.0-alpha33` and exactly one entry, at the root page's nested candidate `/docs/index.yaml`. The entry writes the serialised stub with "must not exist". |
| Migrations.MigratedRootIsThePageDocs | src/migrations/initial.ts:7-26 | The stub is titled "Home" with no media or redirects. Its file lists `docs` once, in nested form, and is indexed as `/docs`, which loads as the tree root's id `docs`. |
| Migrations.RootListedOnce | src/migrations/initial.ts:22 | The migrated listing has exactly one candidate of `docs`, and that file is the one in use. |
| Migrations.RootIndexed | src/migrations/initial.ts:22 | The migrated file is indexed under `/docs`. |
| SiteSettings.ToFileContents | src/SiteSettings.tsx:40-48 | The file form drops the two banner images and loses nothing else: with the banners given back, it is the settings again. |
| SiteSettings.WithBanners | src/SiteSettings.tsx:15-32 | Rebuilding the settings from the file form carries the given banners. |
| SiteSettings.FileContentsIgnoreBanners | src/SiteSettings.tsx:40-48 | The file form does not depend on the banners. |
| SiteSettings.DeploymentSettingsFile | src/SiteSettings.tsx:73-76 | The settings file records the setup id when adding and `null` when removing, and is otherwise the file form. |
| SiteSettings.DeploymentChangeset | src/SiteSettings.tsx:80-87 | The setup's changeset plus the settings file. The settings entry overrides any same-key entry, and every other entry stays as the setup made it. |
| SiteSettings.SaveSettingsChangeset | src/SiteSettings.tsx:100-116 | Exactly three unchecked entries: the settings file, and the header and footer banners verbatim. |
| SiteSettings.SettingsStub | src/SiteSettings.tsx:337-345 | The stub's file form is titled "Documentation site", with empty URL prefixes, the default footer link and no deployment setup. Its banners are the default images. |
| SiteSettings.StubSave | src/SiteSettings.tsx:337-345 | Saving the stub writes empty URL prefixes, no deployment setup and the default banners. |
| SiteSettings.SettingsPanel.constructor | src/SiteSettings.tsx:56-59 | The panel starts not busy, without edits, with nothing submitted. |
| SiteSettings.SettingsPanel.HandleWriteDeploymentSetup | src/SiteSettings.tsx:62-91 | Nothing happens when the panel is busy, has no settings or has unsaved edits. Nothing happens when the setup is unknown or throws. Otherwise the setup's changeset with the settings file is submitted, and the panel ends not busy. |
| SiteSettings.SettingsPanel.HandleSaveSettings | src/SiteSettings.tsx:93-121 | Nothing happens while busy. Otherwise the three files are submitted, and afterwards the panel is not busy and the edits are gone, whatever the host answered. |
| SiteSettings.SettingsPanel.InitializeSettings | src/SiteSettings.tsx:123-127 | While busy, nothing changes. Otherwise the button saves the stub: the three files are submitted, the outcome is the host's answer, and the panel ends not busy without edits. |
| Editor.SanitizeReference | src/prosemirror/editor.tsx:258-260 | The result is a stretch of the lower-cased reference, and only white space lies outside it. It is all lower case, with no white space at either end. |
| Editor.SanitizeCutsAtWhitespace | src/prosemirror/editor.tsx:259 | Trimming the lower-cased reference removes only characters that are white space in the reference as typed. |
| Editor.TrimIsStretch | src/prosemirror/editor.tsx:259 | `trim` keeps one contiguous stretch and removes only white space on either side. |
| Editor.LowerKeepsWhitespace | src/prosemirror/editor.tsx:259 | Lower-casing a character does not change whether it is white space. |
| Editor.TrimKeepsLower | src/prosemirror/editor.tsx:259 | Trimming a lower-case string leaves it lower case. |
| Editor.TrimBordersNotSpace | src/prosemirror/editor.tsx:259 | A trimmed string neither starts nor ends with white space. |
| Editor.TrimOfTrimmed | src/prosemirror/editor.tsx:259 | Trimming a string with no white space at either end leaves it unchanged. |
| Editor.SanitizeIdempotent | src/prosemirror/editor.tsx:258-260 | Sanitising twice equals sanitising once. |
| Editor.LowerOfLower | src/prosemirror/editor.tsx:259 | Lower-casing a string that is already lower case leaves it unchanged. |
| Editor.ValidateReference | src/prosemirror/editor.tsx:252-257 | No messages exactly for a reference starting with `urn:iso:std`, and otherwise exactly one message. |
| Editor.ResolveReference | src/prosemirror/editor.tsx:245-251 | The resolver never throws. It gives `''` for non-ISO references. For ISO references it gives the ISO platform address followed by the reference without `urn:`. |
| Editor.StripUrnPrefix | src/prosemirror/editor.tsx:249 | Only a leading `urn:` is removed. |
| Editor.UrnLinkSchema | src/prosemirror/editor.tsx:243-261 | The scheme's label is "URN". |
| Editor.EditorSchemas | src/prosemirror/editor.tsx:68-71 | The library's schemes, with `urn` set to this scheme. |
| Editor.CheckLink | src/prosemirror/editor.tsx:281-304 | An unknown scheme gives no messages and no edit. Otherwise the sanitised reference is validated and resolved, and the reference is kept as typed. A resolution gives its `hRef` and `title`, or `''` for a missing one. A resolver failure gives `hRef` `''` and keeps the link's own title. |
| Editor.ConfirmLink | src/prosemirror/editor.tsx:269-275 | Confirming reports the edit, with its reference sanitised by the original link's scheme, exactly when there is an edit and that scheme is known. |
| Editor.LooseIsoReferenceAccepted | src/prosemirror/editor.tsx:245-260 | Under `urn`, an ISO reference in upper case or padded with spaces passes validation and resolves from its sanitised form. |
| Editor.OtherReferencesRejected | src/prosemirror/editor.tsx:245-257 | Under `urn`, any other reference gets the one message and an empty `hRef`. |
| Editor.UpperCasePaddedUrn | src/prosemirror/editor.tsx:252-260 | ` URN:ISO:STD:8601 ` sanitises to `urn:iso:std:8601`, which validates. |
| Editor.ButtonPropsFor | src/prosemirror/editor.tsx:185-202 | A key in the table gets its entry. Any other key gets just its item's label as text. |
| Editor.ButtonIconIffListed | src/prosemirror/editor.tsx:185-202 | A button has an icon exactly when its key is in the table. |

## Left out

- YAML dumping and loading, the serialiser and the host hooks are parameters of the model. Host I/O is left out, and the host's answer to a changeset is the parameter `hostAccepts`. Logging is left out.
- The `encoding: 'utf-8'` field of each changeset entry is not modelled. Every entry in this code is UTF-8.
- React state is modelled as fields that change at once. The `await` on the host is one step. A busy flag set by a concurrent render is not modelled.
- RepoView.RepoView.HandleSavePage: a host rejection is the outcome `Failed(HostRejected)` rather than a rethrown error. Its changeset is modelled once, through `Update.GetPageChangeset`. The view's copy of that code (src/RepoView.tsx:192-313) and the helpers at src/RepoView.tsx:444-463 duplicate it. The one difference is the view's children test at src/RepoView.tsx:197, which uses a prefix without the trailing `/`. That test runs over the hook object's own keys. The model assumes these are the fields `value`, `isUpdating` and `errors`: the hook type comes from the host's kit and is not part of this model, and the lemmas only need that no key holds a `/`. Under that assumption the test matches only for the odd page path that is a prefix of one of those names. That case is not modelled.
- The view only logs "Unknown action" while `getPageChangeset` throws it. Both are modelled: `Skipped` in the view, and `Failure(UnknownAction)` in `Update`.
- Update.Dirname: `path.dirname` is modelled as the text before the last `/`, or `.`. For a path whose only `/` is the leading one, Node gives `/` (`path.dirname("/a")` is `/`) while the model gives the empty string. Trailing slashes and a path that is just `/` are not modelled either. Page paths never start or end with `/`.
- JsString.LexLe: `localeCompare` is modelled as plain lexicographic order on Unicode code points, not on UTF-16 code units and not as a locale's collation. Characters are code points throughout. So the string lengths, `substring(1)` (RepoView.DropFirst) and the order differ from JavaScript for characters outside the Basic Multilingual Plane, which are two code units there.
- `toLowerCase` is modelled on ASCII letters only; other Unicode case mappings are not modelled.
- Keys such as `constructor` that a JavaScript object inherits from its prototype are not modelled, for example in the button-props lookup.
- PageTree.AttachToParent: it states that every node's actions match its current children. It does not separately state that untouched nodes keep their actions.
- PageTree.NodeTree: it states each step's effect on every reachable parent, but not that every page ends up in the tree. A page whose parent is not reachable from the current tree at its step is dropped, as in the source.
- PageTree.TreeNode: the node's `isExpanded` flag (always true) and the rendering of the action buttons are not modelled. The actions are kept as the values that decide the buttons.
- SiteSettings.SettingsStub: the default banner SVG texts are parameters.
- Deployment templates and their changesets are inputs of `HandleWriteDeploymentSetup`; the templates themselves are not modelled.
- The rich-text schema, JSX rendering, CSS, the link editor's React state and the electron calls (opening a URL, reading a banner file, base64 previews) are not modelled.
- Migrations.InitializeDataset: the optional `onProgress` callback (src/migrations/initial.ts:18) only reports progress and is not modelled.
- Moving media is a TODO in the source (src/update.ts:80-81,120-121), and nothing here models it.
- The resolver's `title` is modelled, but `urn` never provides one.
