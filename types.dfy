/**
  The page record as stored in YAML, the dynamic values `yaml.load` can put in
  its rich-text fields, and the host's changeset shape.
*/
module Types {
  import opened Wrappers

  /** A dynamically typed value, as a parsed YAML document or a JavaScript object holds it. */
  datatype JsValue =
    | Undefined
    | Null
    | Bool(b: bool)
    | Number(n: real)
    | Str(s: string)
    | Object(props: map<string, JsValue>)

  /**
    A documentation page record. `title`, `media` and `redirectFrom` are always
    present; `importance`, `summary`, `contents` and `excerpt` may be absent.
    `summary` and `contents` hold either a plain string or a `{doc: …}` structure.
  */
  datatype SourceDocPageData = SourceDocPageData(
    importance: Option<real>,
    title: string,
    summary: Option<JsValue>,
    contents: Option<JsValue>,
    excerpt: Option<string>,
    media: seq<string>,
    redirectFrom: seq<string>)

  /** A page record with only the required fields. */
  function NewPageRecord(title: string): (r: SourceDocPageData)
    ensures r.title == title && r.media == [] && r.redirectFrom == []
    ensures r.importance.None? && r.summary.None? && r.contents.None? && r.excerpt.None?
  {
    SourceDocPageData(None, title, None, None, None, [], [])
  }

  datatype JsError = TypeError

  /**
    `isProseMirrorStructure`: `data` has an own `doc` property whose `type` is
    not `undefined`. Reading `type` off a `null` or `undefined` `doc`, or calling
    `hasOwnProperty` on `null` or `undefined`, throws.
  */
  function IsProseMirrorStructure(data: JsValue): (r: Result<bool, JsError>)
    ensures r == Success(true) <==>
              data.Object? && "doc" in data.props && data.props["doc"].Object?
              && "type" in data.props["doc"].props && data.props["doc"].props["type"] != Undefined
    ensures r.Failure? <==>
              data.Undefined? || data.Null?
              || (data.Object? && "doc" in data.props && data.props["doc"] in {Undefined, Null})
    ensures data.Str? ==> r == Success(false)
  {
    match data
    case Undefined => Failure(TypeError)
    case Null => Failure(TypeError)
    case Object(props) =>
      if "doc" !in props then Success(false)
      else (
        match props["doc"]
        case Undefined => Failure(TypeError)
        case Null => Failure(TypeError)
        case Object(docProps) => Success("type" in docProps && docProps["type"] != Undefined)
        case _ => Success(false)
      )
    case _ => Success(false)
  }

  /** What a changeset entry expects of the object's current content. */
  datatype OldValue =
    | Unchecked            // `oldValue: undefined`: do not check
    | MustNotExist         // `oldValue: null`: the object must not exist yet
    | Was(content: string) // the object must hold exactly this

  /** One entry of a changeset: `newValue` `None` (`null`) deletes the object. */
  datatype Change = Change(oldValue: OldValue, newValue: Option<string>)

  /** The host's changeset: storage path to change, every entry UTF-8 text. */
  type Changeset = map<string, Change>

  function Write(oldValue: OldValue, content: string): Change {
    Change(oldValue, Some(content))
  }

  /** A deletion that does not check the current content. */
  const DELETE: Change := Change(Unchecked, None)

  /** A changeset handed to the host's `changeObjects`, with its commit message. */
  datatype Commit = Commit(changeset: Changeset, message: string)
}
