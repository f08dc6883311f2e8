/**
  The two page hooks. The sync-status hook indexes the host's file listing by
  logical page path; the page-data hook asks the host for both storage
  candidates of every page and parses the UTF-8 answers. The host hooks
  themselves are parameters.
*/
module Hooks {
  import opened Wrappers
  import opened JsString
  import opened Util
  import opened Types

  /** A host value hook: a value together with its loading state. */
  datatype ValueHook<T> = ValueHook(value: T, isUpdating: bool, errors: seq<string>)

  /**
    The own property names assumed for a host value hook object, as
    `Object.keys` would list them: the hook type belongs to the host's kit and
    is not defined here, so these are its documented fields, not a fact proved
    about it. The lemmas that use them only need that no name holds a `/`.
  */
  const HOOK_FIELD_NAMES: set<string> := {"value", "isUpdating", "errors"}

  /** The sync-status hook with its value re-keyed by page, plus the unfiltered listing. */
  datatype DocPageSyncStatus<S> =
    DocPageSyncStatus(value: map<string, S>, isUpdating: bool, errors: seq<string>, asFiles: map<string, S>)

  /** A JavaScript object's own entries, in `Object.entries` order. */
  type Entries<V> = seq<(string, V)>

  // ---------------------------------------------------------------------------
  // filter / map / reduce over an object's entries

  /** The `i`-th entry passes `f` and is re-keyed to `k`. */
  predicate Produces<V, W>(es: Entries<V>, f: (string, V) -> Option<(string, W)>, i: int, k: string) {
    0 <= i < |es| && f(es[i].0, es[i].1).Some? && f(es[i].0, es[i].1).value.0 == k
  }

  /**
    Keep the entries `f` maps to `Some`, re-key them, and merge the one-entry
    objects with `reduce((p, c) => ({...p, ...c}), {})`.
  */
  function Collect<V, W>(es: Entries<V>, f: (string, V) -> Option<(string, W)>): map<string, W> {
    if es == [] then map[] else Merge(Collect(es[..|es| - 1], f), f(es[|es| - 1].0, es[|es| - 1].1))
  }

  /** `{...m, ...c}` for the one-entry object `c`, if the entry was kept. */
  function Merge<W>(m: map<string, W>, c: Option<(string, W)>): map<string, W> {
    match c
    case None => m
    case Some(kv) => m[kv.0 := kv.1]
  }

  lemma CollectPair<V, W>(a: (string, V), b: (string, V), f: (string, V) -> Option<(string, W)>)
    ensures Collect([a, b], f) == Merge(Merge(map[], f(a.0, a.1)), f(b.0, b.1))
  {
    assert [a, b][..1] == [a] && [a][..0] == [];
    assert Collect([a], f) == Merge(Collect([], f), f(a.0, a.1));
    assert Collect([a, b], f) == Merge(Collect([a], f), f(b.0, b.1));
  }

  /** Entry `i` produces `k` and no later entry does. */
  predicate IsLastProducer<V, W>(es: Entries<V>, f: (string, V) -> Option<(string, W)>, i: int, k: string) {
    Produces(es, f, i, k) && forall j :: i < j < |es| ==> !Produces(es, f, j, k)
  }

  lemma ProducesInPrefix<V, W>(es: Entries<V>, f: (string, V) -> Option<(string, W)>, n: nat, k: string)
    requires n <= |es|
    ensures forall i :: 0 <= i < n ==> (Produces(es[..n], f, i, k) <==> Produces(es, f, i, k))
  {
    forall i | 0 <= i < n
      ensures Produces(es[..n], f, i, k) <==> Produces(es, f, i, k)
    {
      assert es[..n][i] == es[i];
    }
  }

  /**
    A key is in the merged object exactly when some entry produces it, and it
    holds the value of the LAST entry that does: a later entry silently
    overrides an earlier one with the same key.
  */
  lemma {:induction false} CollectLastWins<V, W>(es: Entries<V>, f: (string, V) -> Option<(string, W)>, k: string)
    ensures k in Collect(es, f) <==> exists i :: Produces(es, f, i, k)
    ensures k in Collect(es, f) ==>
              exists i :: IsLastProducer(es, f, i, k) && Collect(es, f)[k] == f(es[i].0, es[i].1).value.1
  {
    if es != [] {
      var n := |es| - 1;
      var pre := es[..n];
      CollectLastWins(pre, f, k);
      ProducesInPrefix(es, f, n, k);
      if Produces(es, f, n, k) {
        assert Collect(es, f) == Collect(pre, f)[k := f(es[n].0, es[n].1).value.1];
        assert IsLastProducer(es, f, n, k);
      } else {
        assert k in Collect(es, f) <==> k in Collect(pre, f);
        if k in Collect(pre, f) {
          var i :| IsLastProducer(pre, f, i, k) && Collect(pre, f)[k] == f(pre[i].0, pre[i].1).value.1;
          assert pre[i] == es[i];
          assert IsLastProducer(es, f, i, k);
        }
        if exists i :: Produces(es, f, i, k) {
          var i :| Produces(es, f, i, k);
          assert Produces(pre, f, i, k);
        }
      }
    }
  }

  function Keep<V>(k: string, v: V): Option<(string, V)> {
    Some((k, v))
  }

  /** The object whose `Object.entries` are `es`. */
  function ObjectOf<V>(es: Entries<V>): map<string, V> {
    Collect(es, Keep)
  }

  /** The object has exactly the entries' keys, each with its (own, unique) value. */
  lemma ObjectOfEntries<V>(es: Entries<V>, i: int)
    requires forall a, b :: 0 <= a < b < |es| ==> es[a].0 != es[b].0
    requires 0 <= i < |es|
    ensures es[i].0 in ObjectOf(es) && ObjectOf(es)[es[i].0] == es[i].1
  {
    CollectLastWins(es, Keep, es[i].0);
    assert Produces(es, Keep, i, es[i].0);
  }

  lemma ObjectOfKeys<V>(es: Entries<V>, k: string)
    ensures k in ObjectOf(es) <==> exists i :: 0 <= i < |es| && es[i].0 == k
  {
    CollectLastWins(es, Keep, k);
    if exists i :: 0 <= i < |es| && es[i].0 == k {
      var i :| 0 <= i < |es| && es[i].0 == k;
      assert Produces(es, Keep, i, k);
    }
  }

  // ---------------------------------------------------------------------------
  // useDocPageSyncStatus

  /** A listed file is kept when it is a documentation page, under its logical path. */
  function SyncEntry<S>(atPath: string, status: S): Option<(string, S)> {
    if IsDocumentationPage(atPath) then Some((FilepathToDocsPath(atPath), status)) else None
  }

  /** The sync-status hook indexed by logical page path; `asFiles` keeps the raw listing. */
  function UseDocPageSyncStatus<S>(result: ValueHook<Entries<S>>): (r: DocPageSyncStatus<S>)
    ensures r.isUpdating == result.isUpdating && r.errors == result.errors
    ensures r.asFiles == ObjectOf(result.value)
  {
    DocPageSyncStatus(
      Collect(result.value, SyncEntry),
      result.isUpdating, result.errors,
      ObjectOf(result.value))
  }

  /**
    A logical path is indexed exactly when some listed documentation page maps
    to it, and it carries the status of the last such file in listing order.
  */
  lemma SyncStatusIndexesPages<S>(result: ValueHook<Entries<S>>, k: string)
    ensures k in UseDocPageSyncStatus(result).value <==>
              exists i :: 0 <= i < |result.value|
                && IsDocumentationPage(result.value[i].0) && FilepathToDocsPath(result.value[i].0) == k
    ensures k in UseDocPageSyncStatus(result).value ==>
              exists i :: 0 <= i < |result.value|
                && IsDocumentationPage(result.value[i].0) && FilepathToDocsPath(result.value[i].0) == k
                && UseDocPageSyncStatus(result).value[k] == result.value[i].1
                && forall j :: i < j < |result.value| ==>
                     !(IsDocumentationPage(result.value[j].0) && FilepathToDocsPath(result.value[j].0) == k)
  {
    var es, f := result.value, SyncEntry;
    CollectLastWins(es, f, k);
    forall i | 0 <= i < |es|
      ensures Produces(es, f, i, k) <==> IsDocumentationPage(es[i].0) && FilepathToDocsPath(es[i].0) == k
    {
    }
  }

  /**
    A page stored in both forms is listed twice; the re-keyed index keeps one
    status for it, the one of whichever file the listing names last.
  */
  lemma SyncStatusBothFormsLastWins<S>(p: string, first: S, second: S)
    requires !Contains(p, FLAT_SUFFIX) && !EndsWith(p, "/index") && p != "/meta"
    ensures var c := FilepathCandidates(p);
            var r := UseDocPageSyncStatus(ValueHook([(c.nested, first), (c.flat, second)], false, []));
            r.value == map[p := second] && r.asFiles == map[c.nested := first, c.flat := second]
  {
    var c := FilepathCandidates(p);
    var es := [(c.nested, first), (c.flat, second)];
    SyncEntryOfCandidates(p, first);
    SyncEntryOfCandidates(p, second);
    CollectPair((c.nested, first), (c.flat, second), SyncEntry);
    assert Collect(es, SyncEntry) == map[p := first][p := second];
    CollectPair((c.nested, first), (c.flat, second), Keep);
    assert Collect(es, Keep) == map[c.nested := first][c.flat := second];
  }

  /** Both storage candidates of a round-tripping page are indexed under the page's path. */
  lemma SyncEntryOfCandidates<S>(p: string, status: S)
    requires !Contains(p, FLAT_SUFFIX) && !EndsWith(p, "/index") && p != "/meta"
    ensures SyncEntry(FilepathCandidates(p).nested, status) == Some((p, status))
    ensures SyncEntry(FilepathCandidates(p).flat, status) == Some((p, status))
  {
    NestedRoundTrip(p);
    FlatRoundTrip(p);
    CandidatesAreDocumentationPages(p);
  }

  // ---------------------------------------------------------------------------
  // useDocPageData: the request

  /** The only encoding the plugin asks for. */
  datatype Encoding = Utf8

  type ObjectDataRequest = map<string, Encoding>

  /** Every storage candidate of the requested logical paths. */
  function RequestedFiles(paths: seq<string>): set<string> {
    (set p | p in paths :: FilepathCandidates(p).nested) + (set p | p in paths :: FilepathCandidates(p).flat)
  }

  /** The request `useDocPageData` builds: each candidate of each path, as UTF-8. */
  function RequestFor(paths: seq<string>): (r: ObjectDataRequest)
    ensures forall i :: 0 <= i < |paths| ==>
              FilepathCandidates(paths[i]).nested in r && FilepathCandidates(paths[i]).flat in r
    ensures forall k :: k in r ==> r[k] == Utf8
  {
    map k | k in RequestedFiles(paths) :: Utf8
  }

  /** The request for one logical path, filled in a loop over its candidates. */
  method CandidateRequest(docPath: string) returns (request: ObjectDataRequest)
    ensures request == RequestFor([docPath])
  {
    var possiblePaths := FilepathCandidates(docPath).AsList();
    request := map[];
    for i := 0 to |possiblePaths|
      invariant request.Keys == set k | k in possiblePaths[..i]
      invariant forall k :: k in request ==> request[k] == Utf8
    {
      request := request[possiblePaths[i] := Utf8];
    }
    assert possiblePaths[..2] == possiblePaths;
    assert RequestedFiles([docPath]) == {possiblePaths[0], possiblePaths[1]};
  }

  /** The per-path requests merged in order: both candidates of every path, nothing else. */
  method DataRequest(paths: seq<string>) returns (request: ObjectDataRequest)
    ensures request == RequestFor(paths)
  {
    request := map[];
    for i := 0 to |paths|
      invariant request.Keys == RequestedFiles(paths[..i])
      invariant forall k :: k in request ==> request[k] == Utf8
    {
      var one := CandidateRequest(paths[i]);
      RequestedFilesSnoc(paths[..i], paths[i]);
      assert paths[..i + 1] == paths[..i] + [paths[i]];
      assert one.Keys == RequestedFiles([paths[i]]);
      request := request + one;
    }
    assert paths[..|paths|] == paths;
    RequestIsRequestFor(request, paths);
  }

  /** A UTF-8 request for exactly the requested files is the request for the paths. */
  lemma RequestIsRequestFor(request: ObjectDataRequest, paths: seq<string>)
    requires request.Keys == RequestedFiles(paths)
    requires forall k :: k in request ==> request[k] == Utf8
    ensures request == RequestFor(paths)
  {
  }

  /** The files for one more path are the files for the earlier paths plus its two candidates. */
  lemma RequestedFilesSnoc(paths: seq<string>, p: string)
    ensures RequestedFiles(paths + [p]) == RequestedFiles(paths) + RequestedFiles([p])
    ensures RequestedFiles([p]) == {FilepathCandidates(p).nested, FilepathCandidates(p).flat}
  {
    forall k | k in RequestedFiles(paths + [p]) && k !in RequestedFiles([p])
      ensures k in RequestedFiles(paths)
    {
      var q :| q in paths + [p] && (k == FilepathCandidates(q).nested || k == FilepathCandidates(q).flat);
      assert q in paths;
    }
  }

  // ---------------------------------------------------------------------------
  // useDocPageData: the answer

  /** What the host returns per requested file: text for UTF-8 files, raw bytes otherwise. */
  datatype ObjectData = TextData(text: string) | BinaryData(bytes: seq<bv8>)

  /** An answer is kept when the file exists and came back as text, parsed, under its logical path. */
  function ParsedEntry(load: string -> SourceDocPageData, path: string, data: Option<ObjectData>)
    : Option<(string, SourceDocPageData)>
  {
    if data.Some? && data.value.TextData? then Some((FilepathToDocsPath(path), load(data.value.text)))
    else None
  }

  /** The host's answer with its value replaced by the parsed pages. */
  function ParseDocPageData(data: ValueHook<Entries<Option<ObjectData>>>, load: string -> SourceDocPageData)
    : (r: ValueHook<map<string, SourceDocPageData>>)
    ensures r.isUpdating == data.isUpdating && r.errors == data.errors
  {
    ValueHook(Collect(data.value, (p, d) => ParsedEntry(load, p, d)), data.isUpdating, data.errors)
  }

  /** `useDocPageData`: build the request, ask the host, parse the answer. */
  method UseDocPageData(
    useObjectData: ObjectDataRequest -> ValueHook<Entries<Option<ObjectData>>>,
    load: string -> SourceDocPageData,
    paths: seq<string>)
    returns (r: ValueHook<map<string, SourceDocPageData>>)
    ensures r == ParseDocPageData(useObjectData(RequestFor(paths)), load)
  {
    var dataRequest := DataRequest(paths);
    var data := useObjectData(dataRequest);
    r := ParseDocPageData(data, load);
  }

  /**
    A logical path is loaded exactly when some answer for a storage path mapping
    to it is present text; its record is that of the last such answer.
  */
  lemma ParsedPagesAreTextAnswers(data: ValueHook<Entries<Option<ObjectData>>>, load: string -> SourceDocPageData, k: string)
    ensures var es := data.value;
            k in ParseDocPageData(data, load).value <==>
              exists i :: 0 <= i < |es| && es[i].1.Some? && es[i].1.value.TextData? && FilepathToDocsPath(es[i].0) == k
    ensures var es := data.value;
            k in ParseDocPageData(data, load).value ==>
              exists i :: 0 <= i < |es| && es[i].1.Some? && es[i].1.value.TextData? && FilepathToDocsPath(es[i].0) == k
                && ParseDocPageData(data, load).value[k] == load(es[i].1.value.text)
                && forall j :: i < j < |es| ==> !(es[j].1.Some? && es[j].1.value.TextData? && FilepathToDocsPath(es[j].0) == k)
  {
    var es, f := data.value, (p, d) => ParsedEntry(load, p, d);
    CollectLastWins(es, f, k);
    forall i | 0 <= i < |es|
      ensures Produces(es, f, i, k) <==> es[i].1.Some? && es[i].1.value.TextData? && FilepathToDocsPath(es[i].0) == k
    {
    }
  }

  /**
    A page stored in exactly one of its two forms is loaded from whichever form
    exists, and nothing else is loaded.
  */
  lemma PageLoadedFromEitherForm(p: string, text: string, nested: bool, load: string -> SourceDocPageData)
    requires !Contains(p, FLAT_SUFFIX) && !EndsWith(p, "/index")
    ensures var c := FilepathCandidates(p);
            var answer := if nested then [(c.nested, Some(TextData(text))), (c.flat, None)]
                          else [(c.nested, None), (c.flat, Some(TextData(text)))];
            ParseDocPageData(ValueHook(answer, false, []), load).value == map[p := load(text)]
  {
    var c := FilepathCandidates(p);
    NestedRoundTrip(p);
    FlatRoundTrip(p);
    var f := (q, d) => ParsedEntry(load, q, d);
    if nested {
      CollectPair((c.nested, Some(TextData(text))), (c.flat, None), f);
    } else {
      CollectPair((c.nested, None), (c.flat, Some(TextData(text))), f);
    }
  }
}
