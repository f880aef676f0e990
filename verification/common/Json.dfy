/** JSON / YAML values as the overlay tools see them. Strings from a closed vocabulary
    that code branches on (a node's status, missing policy, required level) are given as enumerations. */
module Json {

  datatype Status =
    | Known | NotApplicable | Unknown | Unavailable | Proxy | Inactive | LowMateriality | Optionality
    | OtherStatus(text: string)

  datatype Policy =
    | PolicyKnown | NotApplicableRemove | UnknownReduceConfidence | InactiveZeroWeight
    | LowMaterialityFold | OptionalityTrack | OtherPolicy(text: string)

  datatype Level = Required | ConditionalRequired | OptionalLevel | OtherLevel(text: string)

  datatype Val =
    | JNull
    | JBool(on: bool)
    | JNum(num: real)
    | JStr(text: string)
    | JList(items: seq<Val>)
    | JDict(fields: map<string, Val>)
    | JStatus(status: Status)
    | JPolicy(policy: Policy)
    | JLevel(level: Level)

  /** Python truth value. */
  predicate Truthy(v: Val) {
    match v
    case JNull => false
    case JBool(b) => b
    case JNum(n) => n != 0.0
    case JStr(s) => s != ""
    case JList(items) => items != []
    case JDict(fields) => fields != map[]
    case JStatus(_) => true
    case JPolicy(_) => true
    case JLevel(_) => true
  }

  /** `v in (None, "", {}, [])`. */
  predicate Empty(v: Val) {
    v == JNull || v == JStr("") || v == JDict(map[]) || v == JList([])
  }
}
