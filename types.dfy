/** The records the card generator passes around (src/types/index.ts).
    An optional TypeScript field (`company?: string`) is an `Option`; a field is
    "given" in the JavaScript sense (truthy) when it is present and non-empty.
    `CardData.fontFamily` is not declared in src/types/index.ts; it is added here
    because the canvas renderer reads `data.fontFamily`. */
module Types {

  datatype Option<+T> = None | Some(value: T) {
    function GetOr(default: T): T {
      match this
      case Some(v) => v
      case None => default
    }
  }

  /** A JavaScript truthiness test on an optional string: present and not ''. */
  predicate Given(field: Option<string>) {
    field.Some? && field.value != ""
  }

  /** A JavaScript truthiness test on an optional boolean. */
  predicate IsTrue(flag: Option<bool>) {
    flag == Some(true)
  }

  datatype CornerStyle = Rounded | Square

  datatype CardData = CardData(
    name: string,
    title: string,
    company: Option<string>,
    email: Option<string>,
    phone: Option<string>,
    website: Option<string>,
    address: Option<string>,
    linkedin: Option<string>,
    twitter: Option<string>,
    instagram: Option<string>,
    github: Option<string>,
    image: Option<string>,
    logo: Option<string>,
    backText: Option<string>,
    includeBack: Option<bool>,
    fontScale: Option<real>,
    cornerStyle: Option<CornerStyle>,
    fontFamily: Option<string>)

  datatype EmailSignatureData = EmailSignatureData(
    name: string,
    title: string,
    company: string,
    email: string,
    phone: Option<string>,
    website: Option<string>,
    imageUrl: Option<string>,
    linkedin: Option<string>,
    twitter: Option<string>,
    instagram: Option<string>,
    github: Option<string>)

  datatype ColorPalette = ColorPalette(id: string, colors: seq<string>, name: Option<string>)

  /** The four print sizes, with the string value the form stores. */
  datatype PrintSize = Size35x2 | Size35x25 | Size3x2 | Size25x2

  function PrintSizeValue(p: PrintSize): string {
    match p
    case Size35x2 => "3.5x2"
    case Size35x25 => "3.5x2.5"
    case Size3x2 => "3x2"
    case Size25x2 => "2.5x2"
  }

  /** The eight card templates. */
  datatype TemplateId = Minimal | Classic | Modern | Elegant | Bold | Creative | Professional | Simple

  function TemplateIdName(t: TemplateId): string {
    match t
    case Minimal => "minimal"
    case Classic => "classic"
    case Modern => "modern"
    case Elegant => "elegant"
    case Bold => "bold"
    case Creative => "creative"
    case Professional => "professional"
    case Simple => "simple"
  }

  /** The four email-signature templates. */
  datatype EmailTemplateId = EmailSimple | EmailModern | EmailProfessional | EmailCreative

  /** A hyperlink as a template renders it: its `href` and its visible text. */
  datatype Link = Link(href: string, text: string)
}
