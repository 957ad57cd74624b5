// Values of unknown shape, as they reach a validator: every property may be missing, `null`, of
// another JavaScript type, or hold a value of the wanted type.
module Untrusted {
  import opened Optional

  datatype Field<T> = Absent | Null | Other | Is(value: T)

  // `typeof v === 'string' ? v : undefined` and its like.
  function Known<T>(f: Field<T>): Option<T> {
    if f.Is? then Some(f.value) else None
  }

  function Wrap<T>(o: Option<T>): Field<T> {
    if o.Some? then Is(o.value) else Absent
  }

  function WrapNull<T>(o: Option<T>): Field<T> {
    if o.Some? then Is(o.value) else Null
  }

  predicate NonEmpty(f: Field<string>) {
    f.Is? && f.value != ""
  }

  predicate StringOrNull(f: Field<string>) {
    f.Is? || f.Null?
  }

  predicate AllKnown<T>(items: seq<Field<T>>) {
    forall i :: 0 <= i < |items| ==> items[i].Is?
  }

  function Values<T>(items: seq<Field<T>>): (r: seq<T>)
    requires AllKnown(items)
    ensures |r| == |items| && forall i :: 0 <= i < |r| ==> r[i] == items[i].value
  {
    seq(|items|, i requires 0 <= i < |items| => items[i].value)
  }

  // The items that have the wanted type, in order.
  function KnownOnly<T>(items: seq<Field<T>>): seq<T> {
    if items == [] then []
    else if items[0].Is? then [items[0].value] + KnownOnly(items[1..])
    else KnownOnly(items[1..])
  }

  function WrapAll<T>(values: seq<T>): (r: seq<Field<T>>)
    ensures |r| == |values| && forall i :: 0 <= i < |r| ==> r[i] == Is(values[i])
  {
    seq(|values|, i requires 0 <= i < |values| => Is(values[i]))
  }

  lemma {:induction false} KnownOfWrapped<T>(values: seq<T>)
    ensures KnownOnly(WrapAll(values)) == values
  {
    if values != [] {
      KnownOfWrapped(values[1..]);
      assert WrapAll(values)[1..] == WrapAll(values[1..]);
    }
  }

  // What `\s` matches and `trim` removes.
  predicate IsWhitespace(c: char) {
    || '\t' <= c <= '\r' || c == ' ' || c == '\U{00a0}' || c == '\U{1680}' || '\U{2000}' <= c <= '\U{200a}'
    || c == '\U{2028}' || c == '\U{2029}' || c == '\U{202f}' || c == '\U{205f}' || c == '\U{3000}' || c == '\U{feff}'
  }
}
