/** JSON values, and what redaction may do to them. */
module JsonValue {

  datatype Json =
    | Null
    | Bool(flag: bool)
    | Number(value: real)
    | String(text: string)
    | Array(elements: seq<Json>)
    | Object(fields: seq<Field>)

  datatype Field = Field(key: string, value: Json)

  const MARKER := "***REDACTED***"

  predicate HasKey(fields: seq<Field>, key: string) {
    exists j :: 0 <= j < |fields| && fields[j].key == key
  }

  /**
   * Redaction keeps keys, lengths and non-string scalars; any subvalue may become the marker and any string
   * may change.
   */
  ghost predicate Redacted(v: Json, w: Json)
    decreases v
  {
    w == String(MARKER) || RedactedBelow(v, w)
  }

  /** Redaction of everything but the value itself. */
  ghost predicate RedactedBelow(v: Json, w: Json)
    decreases v, 0
  {
    match v
    case String(_) => w.String?
    case Array(elements) =>
      w.Array? && |w.elements| == |elements| && forall i :: 0 <= i < |elements| ==> Redacted(elements[i], w.elements[i])
    case Object(fields) =>
      && w.Object? && |w.fields| == |fields|
      && (forall i :: 0 <= i < |fields| ==> fields[i].key == w.fields[i].key && Redacted(fields[i].value, w.fields[i].value))
    case _ => w == v
  }

  ghost predicate MarkerFree(v: Json)
    decreases v
  {
    match v
    case String(text) => text != MARKER
    case Array(elements) => forall i :: 0 <= i < |elements| ==> MarkerFree(elements[i])
    case Object(fields) => forall i :: 0 <= i < |fields| ==> MarkerFree(fields[i].value)
    case _ => true
  }
}
