/** Value coercion: reconciling a supplied value with the exact type a member
    requires, by identity, by parsing text for simple types, or by reshaping
    a sequence into the required collection shape. */
module Coercion {
  import opened Results
  import opened Types
  import opened Parsing

  /** Conversion towards a simple type. Text is parsed: decimal text for int,
      a boolean literal for bool, and a member name (exact, case-sensitive)
      for an enum. A value already of the type converts to itself. */
  function ConvertSimple(v: Value, t: TypeDesc): (r: Option<Value>)
    requires IsSimple(t)
    ensures r.Some? ==> Assignable(r.value, t)
    ensures r.Some? && !Assignable(v, t) ==> v.Str?
    ensures Assignable(v, t) ==> r == Some(v)
  {
    if Assignable(v, t) then Some(v)
    else if !v.Str? then None
    else
      match t
      case IntType =>
        (match ParseInt(v.text)
         case Some(n) => Some(IntVal(n))
         case None => None)
      case BoolType =>
        (match ParseBool(v.text)
         case Some(b) => Some(BoolVal(b))
         case None => None)
      case EnumType(e) =>
        if v.text in e.members then Some(EnumVal(e, v.text)) else None
      case _ => None
  }

  /** An element can be stored in a collection of `e`: a value assignable to
      `e`, or null when `e` is a reference type. */
  predicate ElementFits(x: Value, e: TypeDesc) {
    if x.Null? then !IsValueType(e) else Assignable(x, e)
  }

  predicate AllFit(xs: seq<Value>, e: TypeDesc) {
    forall i :: 0 <= i < |xs| ==> ElementFits(xs[i], e)
  }

  /** Reshaping of an array or list into the collection shape `t` requires:
      an array when `t` is an array type, a list otherwise. The elements are
      kept, in order. */
  function Reshape(v: Value, t: TypeDesc): (r: Option<Value>)
    requires IsEnumerable(t)
    ensures r.Some? <==> (v.ArrayVal? || v.ListVal?) && AllFit(v.items, t.elem)
    ensures r.Some? ==> Assignable(r.value, t)
    ensures r.Some? ==> (r.value.ArrayVal? || r.value.ListVal?) && r.value.items == v.items
    ensures r.Some? ==> (r.value.ArrayVal? <==> t.ArrayOf?)
  {
    if (v.ArrayVal? || v.ListVal?) && AllFit(v.items, t.elem) then
      Some(if t.ArrayOf? then ArrayVal(t.elem, v.items) else ListVal(t.elem, v.items))
    else None
  }

  /** The whole coercion: identity when assignable, parsing for simple types,
      reshaping for collection types, and nothing else. */
  function Coerce(v: Value, t: TypeDesc): (r: Option<Value>)
    requires !v.Null?
    ensures r.Some? ==> Assignable(r.value, t)
    ensures Assignable(v, t) ==> r == Some(v)
  {
    if Assignable(v, t) then Some(v)
    else if IsSimple(t) then ConvertSimple(v, t)
    else if IsEnumerable(t) then Reshape(v, t)
    else None
  }

  /** Array to list and back again gives the original array: same element
      type, same elements, same order, for any number of elements. */
  lemma ArrayListRoundTrip(e: TypeDesc, xs: seq<Value>)
    requires AllFit(xs, e)
    ensures Coerce(ArrayVal(e, xs), ListOf(e)) == Some(ListVal(e, xs))
    ensures Coerce(ListVal(e, xs), ArrayOf(e)) == Some(ArrayVal(e, xs))
    ensures Coerce(Coerce(ArrayVal(e, xs), ListOf(e)).value, ArrayOf(e)) == Some(ArrayVal(e, xs))
  {
  }

  /** Decimal text of any 32-bit integer converts to that integer. */
  lemma IntTextConverts(n: int)
    requires InInt32Range(n)
    ensures Coerce(Str(FormatInt(n)), IntType) == Some(IntVal(n))
  {
  }

  /** Text converts to an enum exactly when it names one of its members. */
  lemma EnumTextConverts(e: EnumDesc, s: string)
    ensures s in e.members ==> Coerce(Str(s), EnumType(e)) == Some(EnumVal(e, s))
    ensures s !in e.members ==> Coerce(Str(s), EnumType(e)) == None
  {
  }
}
