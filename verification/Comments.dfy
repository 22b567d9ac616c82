/** Blanks and comments between the tokens of JSON and JSON5 text. */
module Comments {
  import opened Bytes
  import opened Text
  import Json

  /** A blank, a comment up to the end of its line, or a bracketed comment. */
  datatype Filler =
    | Blank(unit: Bytes)
    | Line(text: Bytes, ending: Byte)
    | Hash(text: Bytes, ending: Byte)
    | Block(text: Bytes)

  /** No closing mark inside. */
  ghost predicate Unclosed(t: Bytes)
  {
    forall i :: 0 <= i < |t| - 1 ==> t[i] == Json.STAR ==> t[i + 1] != SLASH
  }

  ghost predicate OneLine(t: Bytes, endings: set<Byte>) { forall i :: 0 <= i < |t| ==> t[i] !in endings }

  ghost predicate FillerOk(f: Filler, blanks: set<Bytes>, endings: set<Byte>)
  {
    match f
    case Blank(u) => u in blanks
    case Line(t, e) => OneLine(t, endings) && e in endings
    case Hash(t, e) => OneLine(t, endings) && e in endings
    case Block(t) => Unclosed(t)
  }

  function FillerText(f: Filler): (r: Bytes)
  {
    match f
    case Blank(u) => u
    case Line(t, e) => [SLASH, SLASH] + (t + [e])
    case Hash(t, e) => [Json.HASH] + (t + [e])
    case Block(t) => [SLASH, Json.STAR] + (t + [Json.STAR, SLASH])
  }

  function FillersText(fs: seq<Filler>): (r: Bytes)
  {
    if fs == [] then [] else FillerText(fs[0]) + FillersText(fs[1..])
  }
}
