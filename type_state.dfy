/** The lazily bound type-state of the dynamic vectors. */
module TypeStates {
  import opened Values

  /** `$valueType` (the bound kind), `$valueClass` (Vec and OptionalVec: the
      bound class) and `$valueClassProfile` (the lenient vectors: the class
      names every accepted object shares). All start unset. */
  datatype TypeState = TypeState(valueType: Option<Kind>, valueClass: Option<ClassName>, profile: Option<set<ClassName>>)

  const Unbound: TypeState := TypeState(None, None, None)

  /** What `validateValueType` answers, and the type-state it leaves behind. */
  datatype Verdict = Verdict(ok: bool, next: TypeState)
}
