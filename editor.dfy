/**
  The rich-text editor's logic: the `urn` link scheme, which accepts ISO
  standard references only and resolves them to the ISO Online Browsing
  Platform; what the link editor computes from a link's attributes; and the
  props of the menu buttons.
*/
module Editor {
  import opened Wrappers
  import opened JsString
  import opened Types

  // ---------------------------------------------------------------------------
  // Link schemes

  /** What a scheme's resolver yields; an absent `hRef` or `title` is `undefined`. */
  datatype Resolution = Resolution(title: Option<string>, hRef: Option<string>)

  /**
    A link scheme as the editor uses it. The editor's own schemes come from the
    editor library; only the `urn` scheme is defined here. A resolver that
    throws is a `Failure`.
  */
  datatype LinkSchema = LinkSchema(
    entityTypeLabel: string,
    resolveReference: string -> Result<Resolution, JsError>,
    validateReference: string -> seq<string>,
    sanitizeReference: string -> string)

  const ISO_URN_PREFIX: string := "urn:iso:std"
  const ISO_OBP_URL: string := "https://www.iso.org/obp/ui/#"
  const ONLY_ISO_MESSAGE: string := "Currently, only ISO standard references are supported"

  /**
    `sanitizeReference`: lower-case, then trim. The result is a stretch of the
    lower-cased reference, cut only at white space.
  */
  function SanitizeReference(reference: string): (r: string)
    ensures |r| <= |reference|
    ensures exists a, b :: 0 <= a <= b <= |reference| && r == ToLower(reference)[a..b]
              && (forall i :: 0 <= i < a ==> IsJsWhitespace(reference[i]))
              && (forall i :: b <= i < |reference| ==> IsJsWhitespace(reference[i]))
    ensures r == [] || (!IsJsWhitespace(r[0]) && !IsJsWhitespace(r[|r| - 1]))
    ensures forall i :: 0 <= i < |r| ==> LowerChar(r[i]) == r[i]
  {
    var lower := ToLower(reference);
    TrimKeepsLower(lower);
    TrimBordersNotSpace(lower);
    SanitizeCutsAtWhitespace(reference);
    Trim(lower)
  }

  /** Lower-casing neither makes nor removes white space. */
  lemma LowerKeepsWhitespace(c: char)
    ensures IsJsWhitespace(LowerChar(c)) <==> IsJsWhitespace(c)
  {
  }

  /** `Trim(s)` is `s[a..b]` with only white space outside. */
  lemma TrimIsStretch(s: string) returns (a: nat, b: nat)
    ensures a <= b <= |s| && Trim(s) == s[a..b]
    ensures forall i :: 0 <= i < a ==> IsJsWhitespace(s[i])
    ensures forall i :: b <= i < |s| ==> IsJsWhitespace(s[i])
  {
    var t := TrimStart(s);
    a := |s| - |t|;
    b := a + |TrimEnd(t)|;
    assert TrimEnd(t) == t[..b - a];
    forall i | b <= i < |s|
      ensures IsJsWhitespace(s[i])
    {
      assert s[i] == t[i - a];
    }
  }

  /** The sanitised reference is a stretch of the lower-cased one, cut only at white space. */
  lemma SanitizeCutsAtWhitespace(reference: string)
    ensures exists a, b :: 0 <= a <= b <= |reference| && Trim(ToLower(reference)) == ToLower(reference)[a..b]
              && (forall i :: 0 <= i < a ==> IsJsWhitespace(reference[i]))
              && (forall i :: b <= i < |reference| ==> IsJsWhitespace(reference[i]))
  {
    var lower := ToLower(reference);
    var a, b := TrimIsStretch(lower);
    forall i | 0 <= i < a
      ensures IsJsWhitespace(reference[i])
    {
      WhitespaceBeforeLowering(reference, lower, i);
    }
    forall i | b <= i < |reference|
      ensures IsJsWhitespace(reference[i])
    {
      WhitespaceBeforeLowering(reference, lower, i);
    }
    assert Trim(lower) == lower[a..b];
  }

  /** A character white space after lowering was white space before. */
  lemma WhitespaceBeforeLowering(reference: string, lower: string, i: nat)
    requires lower == ToLower(reference) && i < |reference| && IsJsWhitespace(lower[i])
    ensures IsJsWhitespace(reference[i])
  {
    assert lower[i] == LowerChar(reference[i]);
    LowerKeepsWhitespace(reference[i]);
  }

  /** `validateReference`: no message for an ISO standard URN, one message otherwise. */
  function ValidateReference(reference: string): (r: seq<string>)
    ensures r == [] <==> StartsWith(reference, ISO_URN_PREFIX)
    ensures r != [] ==> r == [ONLY_ISO_MESSAGE]
  {
    if !StartsWith(reference, ISO_URN_PREFIX) then [ONLY_ISO_MESSAGE] else []
  }

  /**
    `resolveReference`: an empty `hRef` for anything but an ISO standard URN;
    otherwise the platform's address followed by the reference without its
    leading `urn:`. It never throws and never gives a title.
  */
  function ResolveReference(reference: string): (r: Result<Resolution, JsError>)
    ensures r.Success? && r.value.title.None? && r.value.hRef.Some?
    ensures !StartsWith(reference, ISO_URN_PREFIX) ==> r.value.hRef == Some("")
    ensures StartsWith(reference, ISO_URN_PREFIX) ==>
              var h := r.value.hRef.value;
              StartsWith(h, ISO_OBP_URL) && "urn:" + h[|ISO_OBP_URL|..] == reference
  {
    if !StartsWith(reference, ISO_URN_PREFIX) then
      Success(Resolution(None, Some("")))
    else
      Success(Resolution(None, Some(ISO_OBP_URL + StripUrnPrefix(reference))))
  }

  /** `replace(/^urn:/, '')`: the leading `urn:` removed, when there is one. */
  function StripUrnPrefix(s: string): (r: string)
    ensures StartsWith(s, "urn:") ==> "urn:" + r == s
    ensures !StartsWith(s, "urn:") ==> r == s
  {
    if StartsWith(s, "urn:") then s[4..] else s
  }

  /** The `urn` scheme. */
  function UrnLinkSchema(): (r: LinkSchema)
    ensures r.entityTypeLabel == "URN"
  {
    LinkSchema("URN", ResolveReference, ValidateReference, SanitizeReference)
  }

  /** The editor's schemes: the library's defaults, with `urn` set to the scheme above. */
  function EditorSchemas(defaults: map<string, LinkSchema>): (r: map<string, LinkSchema>)
    ensures r.Keys == defaults.Keys + {"urn"}
    ensures r["urn"] == UrnLinkSchema()
    ensures forall id :: id in defaults && id != "urn" ==> r[id] == defaults[id]
  {
    defaults["urn" := UrnLinkSchema()]
  }

  // ---------------------------------------------------------------------------
  // The link editor's computations

  /** A link's attributes. */
  datatype LinkAttrs = LinkAttrs(schemaID: string, reference: string, hRef: string, title: string)

  /** What the link editor shows after checking a link: its messages, and the attributes it now edits. */
  datatype LinkCheck = LinkCheck(errors: seq<string>, edited: Option<LinkAttrs>)

  /** JavaScript's `x || ''` on an optional string. */
  function OrEmpty(x: Option<string>): string {
    if x.Some? then x.value else ""
  }

  /**
    The link editor's effect on a change of scheme or reference: messages
    cleared; for a known scheme, the sanitised reference is validated and
    resolved, and the edited attributes take the resolved `hRef` and `title`,
    or an empty `hRef` when the resolver throws. The reference itself is left
    as typed.
  */
  function CheckLink(schemas: map<string, LinkSchema>, attr: LinkAttrs): (r: LinkCheck)
    ensures attr.schemaID !in schemas ==> r == LinkCheck([], None)
    ensures attr.schemaID in schemas ==>
              var schema := schemas[attr.schemaID];
              var sanitized := schema.sanitizeReference(attr.reference);
              && r.errors == schema.validateReference(sanitized)
              && r.edited.Some?
              && r.edited.value.schemaID == attr.schemaID
              && r.edited.value.reference == attr.reference
              && (schema.resolveReference(sanitized).Success? ==>
                    var res := schema.resolveReference(sanitized).value;
                    r.edited.value.hRef == OrEmpty(res.hRef) && r.edited.value.title == OrEmpty(res.title))
              && (schema.resolveReference(sanitized).Failure? ==>
                    r.edited.value.hRef == "" && r.edited.value.title == attr.title)
  {
    if attr.schemaID !in schemas then LinkCheck([], None)
    else
      var schema := schemas[attr.schemaID];
      var sanitized := schema.sanitizeReference(attr.reference);
      var errors := schema.validateReference(sanitized);
      match schema.resolveReference(sanitized)
      case Success(res) => LinkCheck(errors, Some(attr.(hRef := OrEmpty(res.hRef), title := OrEmpty(res.title))))
      case Failure(_) => LinkCheck(errors, Some(attr.(hRef := "")))
  }

  /**
    Confirming an edit: with edited attributes and a known scheme for the
    ORIGINAL attributes' scheme id, the edited attributes with their reference
    sanitised by that scheme; otherwise nothing is reported.
  */
  function ConfirmLink(schemas: map<string, LinkSchema>, attrs: LinkAttrs, edited: Option<LinkAttrs>): (r: Option<LinkAttrs>)
    ensures r.Some? <==> edited.Some? && attrs.schemaID in schemas
    ensures r.Some? ==>
              r.value == edited.value.(reference := schemas[attrs.schemaID].sanitizeReference(edited.value.reference))
  {
    if edited.Some? && attrs.schemaID in schemas then
      Some(edited.value.(reference := schemas[attrs.schemaID].sanitizeReference(edited.value.reference)))
    else None
  }

  // ---------------------------------------------------------------------------
  // Facts about the `urn` scheme

  /** Sanitising is idempotent: a sanitised reference is its own sanitised form. */
  lemma {:induction false} SanitizeIdempotent(reference: string)
    ensures SanitizeReference(SanitizeReference(reference)) == SanitizeReference(reference)
  {
    var y := SanitizeReference(reference);
    LowerOfLower(y);
    TrimOfTrimmed(y);
    calc {
      SanitizeReference(y);
      Trim(ToLower(y));
      Trim(y);
      y;
    }
  }

  /** Lowering a string that is already lower case leaves it as it is. */
  lemma LowerOfLower(y: string)
    requires forall i :: 0 <= i < |y| ==> LowerChar(y[i]) == y[i]
    ensures ToLower(y) == y
  {
  }

  /**
    In the link editor, an ISO reference typed in upper case or with spaces
    around it is accepted and resolved, from its sanitised form.
  */
  lemma LooseIsoReferenceAccepted(defaults: map<string, LinkSchema>, attr: LinkAttrs)
    requires attr.schemaID == "urn"
    requires StartsWith(SanitizeReference(attr.reference), ISO_URN_PREFIX)
    ensures var r := CheckLink(EditorSchemas(defaults), attr);
            && r.errors == []
            && r.edited == Some(attr.(hRef := ISO_OBP_URL + SanitizeReference(attr.reference)[4..], title := ""))
  {
  }

  /** Under the `urn` scheme, any reference that does not sanitise to an ISO URN gets the one message and no address. */
  lemma OtherReferencesRejected(defaults: map<string, LinkSchema>, attr: LinkAttrs)
    requires attr.schemaID == "urn"
    requires !StartsWith(SanitizeReference(attr.reference), ISO_URN_PREFIX)
    ensures var r := CheckLink(EditorSchemas(defaults), attr);
            r.errors == [ONLY_ISO_MESSAGE] && r.edited == Some(attr.(hRef := "", title := ""))
  {
  }

  /** A concrete case: upper case and padding are accepted. */
  lemma UpperCasePaddedUrn()
    ensures SanitizeReference(" URN:ISO:STD:8601 ") == "urn:iso:std:8601"
    ensures ValidateReference(SanitizeReference(" URN:ISO:STD:8601 ")) == []
  {
    ExampleLowered();
    ExampleTrimmed();
    assert "urn:iso:std:8601"[..11] == ISO_URN_PREFIX;
  }

  lemma ExampleLowered()
    ensures ToLower(" URN:ISO:STD:8601 ") == " urn:iso:std:8601 "
  {
    var s := " URN:ISO:STD:8601 ";
    forall i | 0 <= i < |s|
      ensures ToLower(s)[i] == " urn:iso:std:8601 "[i]
    {
    }
  }

  lemma ExampleTrimmed()
    ensures Trim(" urn:iso:std:8601 ") == "urn:iso:std:8601"
  {
    var x := "urn:iso:std:8601";
    assert " urn:iso:std:8601 " == [' '] + x + [' '];
    PaddingTrimmed(x);
  }

  /** One space on either side of a string with non-blank ends is exactly what trimming removes. */
  lemma PaddingTrimmed(x: string)
    requires x != [] && !IsJsWhitespace(x[0]) && !IsJsWhitespace(x[|x| - 1])
    ensures Trim([' '] + x + [' ']) == x
  {
    var s := [' '] + x + [' '];
    assert s[1..] == x + [' '];
    assert TrimStart(s) == x + [' '];
    assert (x + [' '])[..|x|] == x;
    assert TrimEnd(x + [' ']) == TrimEnd(x) == x;
  }

  // ---------------------------------------------------------------------------
  // Helpers about trimming

  /** Trimming a string whose characters are all lower case leaves them lower case. */
  lemma TrimKeepsLower(s: string)
    requires forall i :: 0 <= i < |s| ==> LowerChar(s[i]) == s[i]
    ensures forall i :: 0 <= i < |Trim(s)| ==> LowerChar(Trim(s)[i]) == Trim(s)[i]
  {
    var a, b := TrimIsStretch(s);
    forall i | 0 <= i < b - a
      ensures LowerChar(s[a..b][i]) == s[a..b][i]
    {
      assert s[a..b][i] == s[a + i];
    }
  }

  /** A trimmed string neither starts nor ends with white space. */
  lemma TrimBordersNotSpace(s: string)
    ensures Trim(s) == [] || (!IsJsWhitespace(Trim(s)[0]) && !IsJsWhitespace(Trim(s)[|Trim(s)| - 1]))
  {
    var t := TrimStart(s);
    var u := TrimEnd(t);
    if u != [] {
      assert u[0] == t[0];
    }
  }

  /** Trimming a string with no white space at either end leaves it as it is. */
  lemma TrimOfTrimmed(y: string)
    requires y == [] || (!IsJsWhitespace(y[0]) && !IsJsWhitespace(y[|y| - 1]))
    ensures Trim(y) == y
  {
  }

  // ---------------------------------------------------------------------------
  // Menu buttons

  /** The props a menu button gets: an icon, a text, or both. */
  datatype ButtonProps = ButtonProps(icon: Option<string>, text: Option<string>)

  function Icon(name: string): ButtonProps {
    ButtonProps(Some(name), None)
  }

  /** The fixed table of button props, by menu item key. */
  const ITEM_BUTTON_PROPS: map<string, ButtonProps> := map[
    "plain" := Icon("paragraph"),
    "bullet_list" := Icon("properties"),
    "ordered_list" := Icon("numbered-list"),
    "lift" := Icon("chevron-left"),
    "join_up" := Icon("collapse-all"),
    "code" := Icon("code"),
    "code_block" := Icon("code-block"),
    "admonition" := Icon("lightbulb"),
    "admonition_caption" := Icon("header"),
    "link" := Icon("link"),
    "isoStandardLink" := ButtonProps(Some("link"), Some("ISO")),
    "section" := ButtonProps(Some("insert"), Some("Subsection")),
    "section_header" := Icon("header")
  ]

  /** A button's props: the table's entry for its key, or just the item's label as text. */
  function ButtonPropsFor(key: string, itemLabel: string): (r: ButtonProps)
    ensures key in ITEM_BUTTON_PROPS ==> r == ITEM_BUTTON_PROPS[key]
    ensures key !in ITEM_BUTTON_PROPS ==> r == ButtonProps(None, Some(itemLabel))
  {
    if key in ITEM_BUTTON_PROPS then ITEM_BUTTON_PROPS[key] else ButtonProps(None, Some(itemLabel))
  }

  /** Every button has an icon exactly when its key is in the table; the rest show their label. */
  lemma ButtonIconIffListed(key: string, itemLabel: string)
    ensures ButtonPropsFor(key, itemLabel).icon.Some? <==> key in ITEM_BUTTON_PROPS
    ensures key !in ITEM_BUTTON_PROPS ==> ButtonPropsFor(key, itemLabel).text == Some(itemLabel)
  {
    if key in ITEM_BUTTON_PROPS {
      assert ITEM_BUTTON_PROPS[key].icon.Some?;
    }
  }
}
