/** The values that travel through the audit trail: JSON, and what may turn up where JSON is expected. */
module JsonValues {
  predicate IsIsoChar(c: char) { '0' <= c <= '9' || c == '-' || c == '+' || c == ':' || c == '.' || c == 'T' || c == 'Z' }

  predicate IsIsoText(s: string) { |s| <= 27 && forall i :: 0 <= i < |s| ==> IsIsoChar(s[i]) }

  /** A date as its ISO text, which has at most 27 characters. */
  type IsoText = s: string | IsIsoText(s)

  /** `Other` is a function, symbol or big integer with its text. */
  datatype Value =
    | Null
    | Undefined
    | Bool(b: bool)
    | Num(n: int)
    | Str(s: string)
    | Date(iso: IsoText)
    | Other(text: string)
    | Arr(items: seq<Value>)
    | Obj(fields: seq<Field>)

  /** An object's properties are listed in the order they enumerate in. */
  datatype Field = Field(key: string, value: Value)

  ghost predicate KeysDistinct(fields: seq<Field>) {
    forall i, j :: 0 <= i < j < |fields| ==> fields[i].key != fields[j].key
  }
}
