/** What a Flask handler sees of a request, and the status codes it answers
    with. One map holds whichever of `request.json`, `request.form` or
    `request.args` a handler reads; every value is text, which is what the
    client sends (its ids come from route parameters). */
module Http {
  import opened Wrappers
  import opened Strings

  const OK := 200
  const Created := 201
  const BadRequest := 400
  const Unauthorized := 401
  const Forbidden := 403
  const NotFound := 404
  const Conflict := 409
  const UnsupportedMediaType := 415
  const ServerError := 500

  /** An uploaded part of a multipart request; only its name matters here. */
  datatype FilePart = FilePart(filename: string)

  datatype Request = Request(isJson: bool, fields: map<string, string>, files: map<string, FilePart>)

  /** `data.get(key)`, `request.form.get(key)`, `request.args.get(key)`. */
  function Field(req: Request, key: string): (v: Option<string>)
    ensures v.Some? <==> key in req.fields
    ensures v.Some? ==> v.value == req.fields[key]
  {
    if key in req.fields then Some(req.fields[key]) else None
  }

  /** Python truthiness of an optional text: `if not x` fails exactly for a
      missing value and for "". */
  predicate Given(v: Option<string>) {
    v.Some? && v.value != ""
  }

  /** The text of a given value ("" otherwise). */
  function TextOf(v: Option<string>): string {
    v.GetOr("")
  }

  /** The text of a field ("" when missing). */
  function Text(req: Request, key: string): string {
    TextOf(Field(req, key))
  }

  /** The integer id a text parameter stands for when MySQL compares it with
      an integer column: the value of a text of decimal digits; None (no row
      matches) for a missing or non-numeric parameter. */
  function IdOf(v: Option<string>): (r: Option<nat>)
    ensures r.Some? ==> Given(v)
  {
    match v
    case None => None
    case Some(t) => ParseDecimal(t)
  }

  /** An id rendered by the server and sent back by the client designates
      the same row. */
  lemma IdOfRendered(n: nat)
    ensures IdOf(Some(NatToString(n))) == Some(n)
  {
    ParseNatToString(n);
  }
}
