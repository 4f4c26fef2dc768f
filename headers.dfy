/** Header names as h2_stream_add_header classifies them, and the four
    pseudo-header fields of section 8.1.2.3 of RFC 7540 a request stream
    records. */
module Headers {
  import opened Base

  /** A header whose name starts with ':' is a pseudo-header. */
  predicate IsPseudo(name: string) {
    |name| > 0 && name[0] == ':'
  }

  predicate IsRegular(name: string) {
    |name| > 0 && name[0] != ':'
  }

  datatype Field = Method | Scheme | Path | Authority

  /** The exact, case-sensitive pseudo-header name of each field. */
  function FieldName(f: Field): string {
    match f
    case Method => ":method"
    case Scheme => ":scheme"
    case Path => ":path"
    case Authority => ":authority"
  }

  /** The field a pseudo-header name sets: only an exact match on one of
      the four names sets anything. */
  function PseudoField(name: string): (r: Option<Field>)
    ensures r.Some? ==> FieldName(r.value) == name
    ensures r.None? ==> forall f: Field :: FieldName(f) != name
  {
    if name == FieldName(Method) then Some(Method)
    else if name == FieldName(Scheme) then Some(Scheme)
    else if name == FieldName(Path) then Some(Path)
    else if name == FieldName(Authority) then Some(Authority)
    else None
  }

  /** The request identity a stream collects from pseudo-headers. */
  datatype PseudoFields = PseudoFields(requestMethod: Option<string>, scheme: Option<string>,
                                       path: Option<string>, authority: Option<string>)
  {
    function Get(f: Field): Option<string> {
      match f
      case Method => requestMethod
      case Scheme => scheme
      case Path => path
      case Authority => authority
    }

    /** Records v for f, replacing any earlier value, and nothing else. */
    function Set(f: Field, v: string): (r: PseudoFields)
      ensures r.Get(f) == Some(v)
      ensures forall g: Field :: g != f ==> r.Get(g) == Get(g)
    {
      match f
      case Method => this.(requestMethod := Some(v))
      case Scheme => this.(scheme := Some(v))
      case Path => this.(path := Some(v))
      case Authority => this.(authority := Some(v))
    }
  }

  /** The effect of an accepted pseudo-header with a non-empty value: a
      known name overwrites its field, an unknown one changes nothing. */
  function ApplyPseudo(p: PseudoFields, name: string, value: string): PseudoFields {
    match PseudoField(name)
    case Some(f) => p.Set(f, value)
    case None => p
  }
}
