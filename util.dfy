/**
  The page-path convention. A page with logical path `p` is stored either
  nested, at `p/index.yaml`, or flat, at `p.yaml`; a storage path is mapped
  back to a logical path by deleting the first `/index.yaml` and then the
  first `.yaml`.
*/
module Util {
  import opened JsString

  const NESTED_SUFFIX: string := "/index.yaml"
  const FLAT_SUFFIX: string := ".yaml"

  /** The two storage candidates of a logical path, nested first. */
  datatype Candidates = Candidates(nested: string, flat: string) {
    /** The candidates in the order a `for … of` loop visits them. */
    function AsList(): seq<string> {
      [nested, flat]
    }
  }

  /** Both storage candidates of `forDocPath`: the nested one first, then the flat one. */
  function FilepathCandidates(forDocPath: string): (r: Candidates)
    ensures r.nested != r.flat
    ensures StartsWith(r.nested, forDocPath) && |r.nested| == |forDocPath| + 11
    ensures StartsWith(r.flat, forDocPath) && |r.flat| == |forDocPath| + 5
    ensures EndsWith(r.nested, "/index.yaml") && EndsWith(r.flat, ".yaml")
  {
    Candidates(forDocPath + NESTED_SUFFIX, forDocPath + FLAT_SUFFIX)
  }

  /**
    The logical path a storage path stands for: never longer than the storage
    path, and a path without `.yaml` stands for itself.
  */
  function FilepathToDocsPath(filepath: string): (r: string)
    ensures |r| <= |filepath|
    ensures !Contains(filepath, FLAT_SUFFIX) ==> r == filepath
  {
    NoYamlNoNested(filepath);
    Replace(Replace(filepath, NESTED_SUFFIX, ""), FLAT_SUFFIX, "")
  }

  /** A path without `.yaml` holds no `/index.yaml` either. */
  lemma NoYamlNoNested(filepath: string)
    ensures !Contains(filepath, FLAT_SUFFIX) ==> !Contains(filepath, NESTED_SUFFIX)
  {
    forall j: nat | j <= |filepath| && OccursAt(filepath, NESTED_SUFFIX, j)
      ensures Contains(filepath, FLAT_SUFFIX)
    {
      NestedSuffixHoldsFlatSuffix(filepath, j);
    }
  }

  /** Whether a storage path counts as a documentation page when the host's listing is indexed. */
  predicate IsDocumentationPage(atPath: string): (r: bool)
    ensures EndsWith(atPath, ".yaml") && atPath != "/meta.yaml" ==> r
  {
    YamlIsNotMedia(atPath);
    atPath != "/meta.yaml"
    && !EndsWith(atPath, ".DS_Store")
    && !EndsWith(atPath, ".svg")
    && !EndsWith(atPath, ".mp4")
  }

  // ---------------------------------------------------------------------------
  // Facts about the convention

  /** An occurrence of `pat` inside the first `|p|` characters of `p + q` is an occurrence in `p`. */
  lemma OccurrenceInPrefix(p: string, q: string, pat: string, j: nat)
    requires OccursAt(p + q, pat, j) && j + |pat| <= |p|
    ensures OccursAt(p, pat, j)
  {
    assert (p + q)[j..j + |pat|] == p[j..j + |pat|];
  }

  /** Any path holding `/index.yaml` also holds `.yaml`. */
  lemma NestedSuffixHoldsFlatSuffix(p: string, j: nat)
    requires OccursAt(p, NESTED_SUFFIX, j)
    ensures OccursAt(p, FLAT_SUFFIX, j + 6)
  {
    assert p[j + 6..j + 11] == p[j..j + 11][6..];
  }

  /** The nested candidate of a path free of `.yaml` maps back to the path. */
  lemma {:induction false} NestedRoundTrip(p: string)
    requires !Contains(p, FLAT_SUFFIX)
    ensures FilepathToDocsPath(FilepathCandidates(p).nested) == p
  {
    var s := p + NESTED_SUFFIX;
    assert OccursAt(s, NESTED_SUFFIX, |p|) by { assert s[|p|..] == NESTED_SUFFIX; }
    forall j: nat | j < |p|
      ensures !OccursAt(s, NESTED_SUFFIX, j)
    {
      if OccursAt(s, NESTED_SUFFIX, j) {
        if j + 11 <= |p| {
          OccurrenceInPrefix(p, NESTED_SUFFIX, NESTED_SUFFIX, j);
          NestedSuffixHoldsFlatSuffix(p, j);
          assert false;
        } else {
          OccurrenceCoveringMark(s, NESTED_SUFFIX, '/', 0, |p|, j);
          assert false;
        }
      }
    }
    ReplaceFirstAt(s, NESTED_SUFFIX, "", |p|);
    assert s[..|p|] + "" + s[|p| + 11..] == p;
  }

  /** Where `/index.yaml` can occur in the flat candidate `p.yaml`. */
  lemma NestedSuffixInFlatCandidate(p: string, j: nat)
    ensures OccursAt(p + FLAT_SUFFIX, NESTED_SUFFIX, j) ==>
              OccursAt(p, FLAT_SUFFIX, j + 6) || EndsWith(p, "/index")
  {
    var s := p + FLAT_SUFFIX;
    if OccursAt(s, NESTED_SUFFIX, j) {
      if j + 11 <= |p| {
        OccurrenceInPrefix(p, FLAT_SUFFIX, NESTED_SUFFIX, j);
        NestedSuffixHoldsFlatSuffix(p, j);
      } else {
        assert s[|p|] == '.';
        OccurrenceCoveringMark(s, NESTED_SUFFIX, '.', 6, |p|, j);
        assert s[j..j + 6] == s[j..j + 11][..6] == "/index";
        assert p[|p| - 6..] == s[j..j + 6];
      }
    }
  }

  /**
    The flat candidate of a path that is free of `.yaml` and does not end in
    `/index` maps back to the path.
  */
  lemma {:induction false} FlatRoundTrip(p: string)
    requires !Contains(p, FLAT_SUFFIX)
    requires !EndsWith(p, "/index")
    ensures FilepathToDocsPath(FilepathCandidates(p).flat) == p
  {
    var s := p + FLAT_SUFFIX;
    forall j: nat | j <= |s|
      ensures !OccursAt(s, NESTED_SUFFIX, j)
    {
      NestedSuffixInFlatCandidate(p, j);
    }
    assert OccursAt(s, FLAT_SUFFIX, |p|) by { assert s[|p|..] == FLAT_SUFFIX; }
    forall j: nat | j < |p|
      ensures !OccursAt(s, FLAT_SUFFIX, j)
    {
      if OccursAt(s, FLAT_SUFFIX, j) {
        if j + 5 <= |p| {
          OccurrenceInPrefix(p, FLAT_SUFFIX, FLAT_SUFFIX, j);
          assert false;
        } else {
          OccurrenceCoveringMark(s, FLAT_SUFFIX, '.', 0, |p|, j);
          assert false;
        }
      }
    }
    ReplaceFirstAt(s, FLAT_SUFFIX, "", |p|);
    assert s[..|p|] + "" + s[|p| + 5..] == p;
  }

  /**
    The flat candidate of `x/index` IS the nested candidate of `x`, so it maps
    back to `x`: the round trip fails for flat paths ending in `/index`.
  */
  lemma FlatIndexMapsToParent(x: string)
    requires !Contains(x, FLAT_SUFFIX)
    ensures FilepathCandidates(x + "/index").flat == FilepathCandidates(x).nested
    ensures FilepathToDocsPath(FilepathCandidates(x + "/index").flat) == x
    ensures FilepathToDocsPath(FilepathCandidates(x + "/index").flat) != x + "/index"
  {
    assert x + "/index" + FLAT_SUFFIX == x + NESTED_SUFFIX;
    NestedRoundTrip(x);
  }

  /**
    Both storage candidates of a page are indexed as documentation pages,
    except the flat candidate of the logical path `/meta`.
  */
  lemma CandidatesAreDocumentationPages(p: string)
    ensures IsDocumentationPage(FilepathCandidates(p).nested)
    ensures IsDocumentationPage(FilepathCandidates(p).flat) <==> p != "/meta"
  {
    var c := FilepathCandidates(p);
    assert c.nested[|c.nested| - 1] == 'l' && c.flat[|c.flat| - 1] == 'l';
    LastCharRulesOut(c.nested, ".DS_Store");
    LastCharRulesOut(c.nested, ".svg");
    LastCharRulesOut(c.nested, ".mp4");
    LastCharRulesOut(c.flat, ".DS_Store");
    LastCharRulesOut(c.flat, ".svg");
    LastCharRulesOut(c.flat, ".mp4");
    assert |c.nested| > |"/meta.yaml"|;
    if c.flat == "/meta.yaml" {
      assert p == c.flat[..|p|];
    }
  }

  /** A YAML file name never carries one of the excluded media suffixes. */
  lemma YamlIsNotMedia(p: string)
    ensures EndsWith(p, ".yaml") ==> !EndsWith(p, ".DS_Store") && !EndsWith(p, ".svg") && !EndsWith(p, ".mp4")
  {
    if EndsWith(p, ".yaml") {
      assert p[|p| - 1] == 'l';
      LastCharRulesOut(p, ".DS_Store");
      LastCharRulesOut(p, ".svg");
      LastCharRulesOut(p, ".mp4");
    }
  }

  /** A string does not end with a suffix whose last character differs from its own. */
  lemma LastCharRulesOut(s: string, suffix: string)
    requires s != [] && suffix != [] && s[|s| - 1] != suffix[|suffix| - 1]
    ensures !EndsWith(s, suffix)
  {
    if |suffix| <= |s| {
      assert s[|s| - |suffix|..][|suffix| - 1] == s[|s| - 1];
    }
  }

  /**
    No SVG, MP4 or `.DS_Store` file, and not `/meta.yaml`, is indexed as a
    page; every PNG file is.
  */
  lemma MediaAreNotPages(p: string)
    ensures (EndsWith(p, ".svg") || EndsWith(p, ".mp4") || EndsWith(p, ".DS_Store") || p == "/meta.yaml")
            ==> !IsDocumentationPage(p)
    ensures EndsWith(p, ".png") ==> IsDocumentationPage(p)
  {
    if EndsWith(p, ".png") {
      assert p[|p| - 1] == 'g' && p[|p| - 3] == 'p';
      LastCharRulesOut(p, ".mp4");
      LastCharRulesOut(p, ".DS_Store");
      assert p != "/meta.yaml" by { assert "/meta.yaml"[9] == 'l'; }
      assert !EndsWith(p, ".svg") by { assert ".svg"[1] == 's'; }
    }
  }

}
