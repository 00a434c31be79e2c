/** Values that JavaScript leaves `undefined` or `null`. */
module Common {

  datatype Option<T> = None | Some(value: T) {
    function GetOr(default: T): T {
      if Some? then value else default
    }
  }

  /** A string value as JavaScript's `||` and `if (x)` see it: absent or empty is falsy. */
  predicate Truthy(s: Option<string>) {
    s.Some? && s.value != ""
  }

  /** `s || fallback` for an optional string. */
  function OrElse(s: Option<string>, fallback: string): (r: string)
    ensures Truthy(s) ==> r == s.value
    ensures !Truthy(s) ==> r == fallback
    ensures r != "" <==> Truthy(s) || fallback != ""
  {
    if Truthy(s) then s.value else fallback
  }

  /** `a || b` for two optional strings: the first truthy one, else `b` as it is. */
  function FirstTruthy(a: Option<string>, b: Option<string>): (r: Option<string>)
    ensures Truthy(a) ==> r == a
    ensures !Truthy(a) ==> r == b
    ensures Truthy(r) <==> Truthy(a) || Truthy(b)
  {
    if Truthy(a) then a else b
  }

  /** `a || b || fallback` groups to the left in JavaScript; taking the first truthy of `a`
      and `b` and then falling back gives the same string as falling back twice. */
  lemma {:induction false} OrElseChain(a: Option<string>, b: Option<string>, fallback: string)
    ensures OrElse(FirstTruthy(a, b), fallback) == OrElse(a, OrElse(b, fallback))
  {
  }

  /** `||` on optional strings is associative. */
  lemma {:induction false} FirstTruthyAssoc(a: Option<string>, b: Option<string>, c: Option<string>)
    ensures FirstTruthy(FirstTruthy(a, b), c) == FirstTruthy(a, FirstTruthy(b, c))
  {
  }

  /** Concatenation regrouped to the right. */
  lemma {:induction false} AppendAssoc<T>(a: seq<T>, b: seq<T>, c: seq<T>)
    ensures (a + b) + c == a + (b + c)
  {
  }
}
