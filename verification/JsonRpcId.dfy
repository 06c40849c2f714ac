/** `jsonrpc.ID` and its string form, by which requests and responses are matched. */
module JsonRpcId {
  import opened Decimal

  // An id in a message that has one; `Null` is the zero value.
  datatype Id = Num(n: Int64) | Str(s: string) | Null

  const NULL_FORM: string := "<null>"

  /** `ID.String()`. */
  function Form(id: Id): string {
    match id
    case Num(n) => OfInt(n)
    case Str(s) => s
    case Null => NULL_FORM
  }

  /** `b` is a string id that spells the number or null id `a`. */
  predicate Spells(b: Id, a: Id) {
    b.Str? && ((a.Num? && b.s == OfInt(a.n)) || (a.Null? && b.s == NULL_FORM))
  }

  /** The ids are the same, or one is a string that spells the other. */
  predicate Alike(a: Id, b: Id) {
    a == b || Spells(a, b) || Spells(b, a)
  }

  /** String forms do not tell a number from the string that spells it, and confuse nothing else. */
  lemma FormsAgree(a: Id, b: Id)
    ensures Form(a) == Form(b) <==> Alike(a, b)
  {
    hide OfInt;
    if a.Num? && b.Num? {
      if OfInt(a.n) == OfInt(b.n) { OfIntInjective(a.n, b.n); }
    }
    if a.Num? { NotNull(a.n); }
    if b.Num? { NotNull(b.n); }
  }

  lemma NotNull(n: int)
    ensures OfInt(n) != NULL_FORM
  {
    assert NULL_FORM[0] == '<';
    assert n >= 0 ==> IsDigit(OfNat(n)[0]);
  }
}
